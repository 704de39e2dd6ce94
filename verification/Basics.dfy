/** Types and small facts shared by every component of the model. */
module Basics {
  /** Record, run and thread ids: the program only compares them for equality and order. */
  type Id = nat

  datatype Option<+T> = None | Some(value: T)

  // A loop over a set keeps what is still to do; these name what is done.

  lemma NoneDone<T>(all: set<T>)
    ensures all - all == {}
  {
  }

  lemma OneLess<T>(all: set<T>, todo: set<T>, x: T)
    requires x in todo && todo <= all
    ensures all - (todo - {x}) == all - todo + {x}
  {
  }

  lemma NothingTodo<T>(all: set<T>)
    ensures all - {} == all
  {
  }
}
