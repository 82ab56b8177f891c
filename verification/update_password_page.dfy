/** The "new password" page: a minimum-length check, then the context's
    `updatePassword`, with a confirmation modal on success.
 */
module UpdatePasswordPage {
  import opened Outcomes

  /** The page's state: `errorMessage` and `showModal`. */
  datatype Screen = Screen(errorMessage: string, showModal: bool)

  const InitialScreen := Screen("", false)

  const TooShort := "La contraseña debe tener al menos 8 caracteres."
  const MinLength := 8

  /** JavaScript's `length` of a string: UTF-16 code units, two for every
      character outside the Basic Multilingual Plane. */
  function Utf16Length(s: string): (n: nat)
    ensures |s| <= n <= 2 * |s|
    decreases |s|
  {
    if |s| == 0 then 0
    else (if s[0] as int >= 0x1_0000 then 2 else 1) + Utf16Length(s[1..])
  }

  /** The page afterwards and the password `updatePassword` was called with, if it was. */
  datatype PasswordSubmit = PasswordSubmit(screen: Screen, updatedWith: Option<string>)

  /** `handleSubmit` with `updatePassword`'s outcome supplied by the caller:
      the error is cleared; a short password is refused without the call;
      otherwise the call is made with that exact password, success shows the
      modal and failure shows the error text. */
  function Submit(s: Screen, password: string, update: Outcome<()>): (r: PasswordSubmit)
    ensures Utf16Length(password) < MinLength ==>
              r == PasswordSubmit(s.(errorMessage := TooShort), None)
    ensures Utf16Length(password) >= MinLength ==> r.updatedWith == Some(password)
    ensures Utf16Length(password) >= MinLength && update.Ok? ==> r.screen == Screen("", true)
    ensures Utf16Length(password) >= MinLength && update.Err? ==>
              r.screen == s.(errorMessage := update.message)
    ensures r.screen.showModal ==> s.showModal || (Utf16Length(password) >= MinLength && update.Ok?)
  {
    var cleared := s.(errorMessage := "");
    if Utf16Length(password) < MinLength then PasswordSubmit(cleared.(errorMessage := TooShort), None)
    else match update
      case Ok(_) => PasswordSubmit(cleared.(showModal := true), Some(password))
      case Err(msg) => PasswordSubmit(cleared.(errorMessage := msg), Some(password))
  }

  /** A password of at least eight characters always passes the length check,
      and one of fewer than four characters never does. */
  lemma LengthCheckBounds(password: string)
    ensures |password| >= MinLength ==> Utf16Length(password) >= MinLength
    ensures |password| < MinLength / 2 ==> Utf16Length(password) < MinLength
  {
  }

  /** The page as the application wires it: the authentication context
      does not provide `updatePassword`, so calling it throws a TypeError
      whose text the engine chooses. */
  function SubmitAsWired(s: Screen, password: string, typeErrorText: string): (r: PasswordSubmit)
    ensures !s.showModal ==> !r.screen.showModal
  {
    Submit(s, password, Err(typeErrorText))
  }

  /** As wired, no password ever shows the confirmation modal: a long one
      ends with the TypeError text and a short one with the length error. */
  lemma AsWiredNeverConfirms(password: string, typeErrorText: string)
    ensures !SubmitAsWired(InitialScreen, password, typeErrorText).screen.showModal
    ensures Utf16Length(password) >= MinLength ==>
              SubmitAsWired(InitialScreen, password, typeErrorText).screen.errorMessage == typeErrorText
  {
  }

  /** With a working `updatePassword`, every long enough password is sent
      as typed and the modal is shown. */
  lemma WorkingUpdateConfirms(password: string)
    requires Utf16Length(password) >= MinLength
    ensures Submit(InitialScreen, password, Ok(())).screen.showModal
    ensures Submit(InitialScreen, password, Ok(())).updatedWith == Some(password)
  {
  }
}
