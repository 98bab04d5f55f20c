/** Completed requests, as the queue protocol and the volume thread both record them. */
module Requests {
  type Id = nat

  datatype Completion<+S> = Completion(id: Id, status: S)

  /** The same answer for every request, in order. */
  function AnswerAll<S>(ids: seq<Id>, status: S): (done: seq<Completion<S>>)
    ensures |done| == |ids|
  {
    seq(|ids|, i requires 0 <= i < |ids| => Completion(ids[i], status))
  }
}
