/** The decision logic of the profile page: saving the category selection,
    which badges are shown unlocked, and the join-date fallback.
 */
module ProfilePage {
  import opened Outcomes
  import opened Categories

  /** The signed-in user as the authentication context exposes it: the
      session's user metadata, whose `id` may be missing. */
  datatype ProfileUser = ProfileUser(id: Option<string>)

  const CategoriesSaved := "Categorías actualizadas correctamente"
  const CategoriesFailedPrefix := "Error al actualizar categorías: "
  const UnknownDate := "Fecha desconocida"

  /** The badge catalogue, in display order. */
  const AllBadges: seq<string> :=
    ["Explorador", "Lector Constante", "Lector Experto", "Maestro Lector", "Sabio de las Noticias"]

  /** What saving the categories did: the `savingCategories` flag afterwards,
      whether the old rows were deleted, the rows inserted, and the alert shown. */
  datatype CategorySave<T> = CategorySave(saving: bool, deleteIssued: bool,
                                          inserted: Option<seq<CategoryRow<T>>>, alert: Option<string>)

  /** `handleSaveCategories`: without a user nothing happens; otherwise the
      user's rows are deleted (that call's result is not inspected), one row
      per selected id is inserted, and the insert's outcome picks the alert. */
  function SaveCategories<T>(user: Option<ProfileUser>, saving: bool, selected: seq<T>,
                             insert: Outcome<()>): (r: CategorySave<T>)
    ensures user.None? ==> r == CategorySave(saving, false, None, None)
    ensures user.Some? ==>
              && !r.saving && r.deleteIssued
              && r.inserted.Some? && |r.inserted.value| == |selected|
              && (forall i :: 0 <= i < |selected| ==>
                    r.inserted.value[i] == CategoryRow(user.value.id, selected[i]))
    ensures user.Some? && insert.Ok? ==> r.alert == Some(CategoriesSaved)
    ensures user.Some? && insert.Err? ==> r.alert == Some(CategoriesFailedPrefix + insert.message)
  {
    match user
    case None => CategorySave(saving, false, None, None)
    case Some(u) =>
      var rows := BuildRows(u.id, selected);
      match insert
      case Ok(_) => CategorySave(false, true, Some(rows), Some(CategoriesSaved))
      case Err(msg) => CategorySave(false, true, Some(rows), Some(CategoriesFailedPrefix + msg))
  }

  /** The badge shelf: every catalogue badge, in order, paired with whether it
      is shown unlocked. */
  function BadgeShelf(userBadges: seq<string>): (shelf: seq<(string, bool)>)
    ensures |shelf| == |AllBadges|
    ensures forall i :: 0 <= i < |shelf| ==> shelf[i].0 == AllBadges[i]
    ensures forall i :: 0 <= i < |shelf| ==> (shelf[i].1 <==> AllBadges[i] in userBadges)
  {
    seq(|AllBadges|, i requires 0 <= i < |AllBadges| => (AllBadges[i], AllBadges[i] in userBadges))
  }

  /** Holding more badges never locks one: every badge a smaller list
      unlocks is also unlocked by a list containing it. */
  lemma BadgeShelfMonotone(fewer: seq<string>, more: seq<string>)
    requires forall b :: b in fewer ==> b in more
    ensures forall i :: 0 <= i < |AllBadges| && BadgeShelf(fewer)[i].1 ==> BadgeShelf(more)[i].1
  {
  }

  /** The join date: the fixed fallback for a missing or empty date, otherwise
      the locale rendering (supplied by the caller). */
  function FormatDate(dateString: Option<string>, localeFormat: string -> string): (r: string)
    ensures !Truthy(dateString) ==> r == UnknownDate
    ensures Truthy(dateString) ==> r == localeFormat(dateString.value)
  {
    if !Truthy(dateString) then UnknownDate else localeFormat(dateString.value)
  }

  /** When the locale rendering never produces the fallback text, the
      fallback is shown exactly for a null, undefined or empty date. */
  lemma FormatDateFallback(dateString: Option<string>, localeFormat: string -> string)
    requires forall d :: localeFormat(d) != UnknownDate
    ensures FormatDate(dateString, localeFormat) == UnknownDate <==> !Truthy(dateString)
  {
  }

  /** The saved rows read back as the selection, carrying the user's id even
      when it is missing, and a duplicate-free selection saves no duplicate row. */
  lemma SavedRowsAreSelection<T>(user: ProfileUser, saving: bool, selected: seq<T>, insert: Outcome<()>)
    ensures var r := SaveCategories(Some(user), saving, selected, insert);
            && r.inserted.Some?
            && CategoryIds(r.inserted.value) == selected
            && (forall i :: 0 <= i < |r.inserted.value| ==> r.inserted.value[i].userId == user.id)
            && (NoDuplicates(selected) ==> NoDuplicates(r.inserted.value))
  {
    BuildRowsReadBack(user.id, selected);
  }
}
