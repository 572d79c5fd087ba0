// Picking from finite sets.
module Sets {
  ghost function AnyOf<T>(ts: set<T>): T
    requires ts != {}
  {
    var t :| t in ts; t
  }
}
