/** What both browser clients share: one-shot response channels, and the work left to a list of callers. */
module Channels {
  /** The receiving end of a caller's oneshot channel. */
  datatype Slot<A> = Open | Answered(answer: A) | Dropped

  /** Dropping senders closes the receivers that were still open. */
  function DropSenders<A>(slots: seq<Slot<A>>, gone: set<nat>): (r: seq<Slot<A>>)
    ensures |r| == |slots|
    ensures forall i :: 0 <= i < |r| ==> r[i] == if i in gone && slots[i].Open? then Dropped else slots[i]
  {
    seq(|slots|, i requires 0 <= i < |slots| => if i in gone && slots[i].Open? then Dropped else slots[i])
  }

  function Total<T>(rank: T -> nat, ts: seq<T>): nat {
    if ts == [] then 0 else rank(ts[0]) + Total(rank, ts[1..])
  }

  lemma {:induction false} TotalUpdate<T>(rank: T -> nat, ts: seq<T>, i: nat, t: T)
    requires i < |ts|
    ensures Total(rank, ts[i := t]) == Total(rank, ts) - rank(ts[i]) + rank(t)
  {
    var updated := ts[i := t];
    if i == 0 {
      assert updated[1..] == ts[1..];
    } else {
      assert updated[1..] == ts[1..][i - 1 := t];
      TotalUpdate(rank, ts[1..], i - 1, t);
    }
  }
}
