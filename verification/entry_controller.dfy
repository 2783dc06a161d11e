/** The one rule of the entry list page kept in the model: a request that
    names no sort order is sorted by date, newest first. */
module EntryController {
  import opened Ordering
  import opened Entities

  /** An unbound sort model (both codes 0) becomes DATE, DESCENDING; any
      other model is kept. */
  function WithDefaultSort(sortModel: SortModel): SortModel
  {
    if sortModel.sortBy == 0 && sortModel.orderBy == 0 then SortModel(DATE, DESCENDING) else sortModel
  }

  /** Without the default the unbound model would fall back to name
      ascending; with it the list is ordered by date descending. A model
      that names a listed pair keeps its order, and applying the rule twice
      changes nothing more. */
  lemma DefaultSortOrder(sortModel: SortModel)
    ensures SortOrderOf(0, 0) == SortOrder(ByName, false)
    ensures sortModel.sortBy == 0 && sortModel.orderBy == 0 ==>
              SortOrderOf(WithDefaultSort(sortModel).sortBy, WithDefaultSort(sortModel).orderBy) == SortOrder(ByDate, true)
    ensures IsSortOption(sortModel.sortBy) && IsOrderOption(sortModel.orderBy) ==> WithDefaultSort(sortModel) == sortModel
    ensures WithDefaultSort(WithDefaultSort(sortModel)) == WithDefaultSort(sortModel)
  {
  }
}
