// The kinds of objects that the collector knows.
module Kinds {
  datatype Kind = PtrFree | Normal | Uncollectable | AUncollectable {
    predicate IsUncollectable() { Uncollectable? || AUncollectable? }
  }
}
