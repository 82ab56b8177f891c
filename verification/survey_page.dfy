/** The onboarding survey: it links the session's e-mail to a `users` row,
    loads the categories, lets the reader toggle them, and inserts the choice.
 */
module SurveyPage {
  import opened Outcomes
  import opened Categories

  /** A row of the `category` table. */
  datatype Category = Category(id: string, name: string)

  /** The page's state: `userId`, `categories`, `selectedCategories`,
      `loading`, `message`, and whether the delayed move to the home page has
      been scheduled. */
  datatype Survey = Survey(userId: Option<string>, categories: seq<Category>, selected: seq<string>,
                           loading: bool, message: string, navigationScheduled: bool)

  const InitialSurvey := Survey(None, [], [], true, "", false)

  const SessionError := "Error al obtener sesión."
  const NoEmail := "No se encontró email del usuario logueado."
  const LinkError := "Error al vincular usuario."
  const CategoriesError := "Error al cargar categorías."
  const NoUser := "No se encontró usuario logueado."
  const SaveError := "Hubo un error al guardar tus preferencias."
  const SaveOk := "Preferencias guardadas con éxito."

  /** Resolving the user: the session's e-mail (or the session error), then
      the id of the `users` row with that e-mail (or the lookup error). The
      lookup outcome is only consulted when there is an e-mail. */
  function GetUser(s: Survey, session: Outcome<Option<string>>, lookup: Outcome<string>): (r: Survey)
    ensures session.Err? ==> r == s.(message := SessionError)
    ensures session.Ok? && !Truthy(session.value) ==> r == s.(message := NoEmail)
    ensures session.Ok? && Truthy(session.value) && lookup.Err? ==> r == s.(message := LinkError)
    ensures r.userId != s.userId ==>
              session.Ok? && Truthy(session.value) && lookup.Ok? && r.userId == Some(lookup.value)
    ensures r.(message := s.message, userId := s.userId) == s
  {
    match session
    case Err(_) => s.(message := SessionError)
    case Ok(email) =>
      if !Truthy(email) then s.(message := NoEmail)
      else match lookup
        case Err(_) => s.(message := LinkError)
        case Ok(id) => s.(userId := Some(id))
  }

  /** Loading the categories: `loading` ends false whether or not the query
      failed; a failure sets the error message and keeps the old list. */
  function FetchCategories(s: Survey, query: Outcome<seq<Category>>): (r: Survey)
    ensures !r.loading
    ensures query.Ok? ==> r.categories == query.value && r.message == s.message
    ensures query.Err? ==> r.categories == s.categories && r.message == CategoriesError
    ensures r.(loading := s.loading, categories := s.categories, message := s.message) == s
  {
    match query
    case Ok(cats) => s.(categories := cats, loading := false)
    case Err(_) => s.(message := CategoriesError, loading := false)
  }

  /** A checkbox click, through the shared toggle. */
  function ToggleCategory(s: Survey, categoryId: string): (r: Survey)
    ensures categoryId in r.selected <==> categoryId !in s.selected
    ensures RemoveAll(r.selected, categoryId) == RemoveAll(s.selected, categoryId)
    ensures r.(selected := s.selected) == s
  {
    s.(selected := Toggle(s.selected, categoryId))
  }

  /** The result of pressing save: the page afterwards and the rows inserted, if any. */
  datatype SurveySave = SurveySave(survey: Survey, inserted: Option<seq<CategoryRow<string>>>)

  /** `handleSave`: without a user id it only sets the message; otherwise it
      inserts one row per selected category and reports the outcome, moving
      on to the home page only on success. */
  function Save(s: Survey, insert: Outcome<()>): (r: SurveySave)
    ensures !Truthy(s.userId) ==> r == SurveySave(s.(message := NoUser), None)
    ensures Truthy(s.userId) ==>
              && r.inserted.Some? && |r.inserted.value| == |s.selected|
              && (forall i :: 0 <= i < |s.selected| ==>
                    r.inserted.value[i] == CategoryRow(s.userId, s.selected[i]))
    ensures Truthy(s.userId) && insert.Err? ==> r.survey == s.(message := SaveError)
    ensures Truthy(s.userId) && insert.Ok? ==>
              r.survey == s.(message := SaveOk, navigationScheduled := true)
  {
    if !Truthy(s.userId) then SurveySave(s.(message := NoUser), None)
    else
      var rows := BuildRows(s.userId, s.selected);
      match insert
      case Err(_) => SurveySave(s.(message := SaveError), Some(rows))
      case Ok(_) => SurveySave(s.(message := SaveOk, navigationScheduled := true), Some(rows))
  }

  /** Navigation to the home page is only ever scheduled by a successful insert. */
  lemma NavigationOnlyAfterInsert(s: Survey, insert: Outcome<()>)
    requires !s.navigationScheduled
    ensures Save(s, insert).survey.navigationScheduled <==> Truthy(s.userId) && insert.Ok?
    ensures Save(s, insert).survey.navigationScheduled ==> Save(s, insert).inserted.Some?
  {
  }

  /** The user lookup and the category fetch both start at mount and may
      finish in either order; apart from which message is left on screen, the
      page ends the same. */
  lemma GetUserCommutesWithFetch(s: Survey, session: Outcome<Option<string>>, lookup: Outcome<string>,
                                 query: Outcome<seq<Category>>)
    ensures GetUser(FetchCategories(s, query), session, lookup).(message := "")
            == FetchCategories(GetUser(s, session, lookup), query).(message := "")
  {
  }

  /** After any series of checkbox clicks from a duplicate-free selection,
      saving inserts exactly the selection, one row per id in order, and no
      row twice. */
  lemma ClickedSelectionSavesDistinctRows(s: Survey, clicks: seq<string>, insert: Outcome<()>)
    requires NoDuplicates(s.selected) && Truthy(s.userId)
    ensures var t := s.(selected := Toggles(s.selected, clicks));
            var r := Save(t, insert);
            && r.inserted.Some?
            && CategoryIds(r.inserted.value) == t.selected
            && NoDuplicates(r.inserted.value)
  {
    var t := s.(selected := Toggles(s.selected, clicks));
    TogglesKeepNoDuplicates(s.selected, clicks);
    BuildRowsReadBack(s.userId, t.selected);
  }
}
