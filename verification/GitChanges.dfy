/** What Git reports about a changed file, and the pair of paths a change is known by. */
module GitChanges {
  import opened Wrappers

  datatype Status = Added | Modified | Deleted | Renamed | Copied | TypeChanged | Unmerged | Unknown

  datatype Key = Key(path: string, previous: Option<string>)
}
