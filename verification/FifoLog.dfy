/** The queue a caller has in mind, and what a run did to it. */
module FifoLog {

  /** What a step does to the sequence of messages. */
  datatype Op<T> = Append(m: T) | Prepend(m: T) | Take(m: T) | Clear | Nothing

  /** Only the first message can be taken. */
  ghost predicate Possible<T>(op: Op<T>, from: seq<T>) {
    op.Take? ==> from != [] && from[0] == op.m
  }

  ghost function After<T>(op: Op<T>, from: seq<T>): (to: seq<T>)
    requires Possible(op, from)
  {
    match op
    case Append(m) => from + [m]
    case Prepend(m) => [m] + from
    case Take(_) => from[1..]
    case Clear => []
    case Nothing => from
  }

  ghost predicate Replays<T>(log: seq<Op<T>>, from: seq<T>, to: seq<T>) {
    if log == [] then to == from
    else Possible(log[0], from) && Replays(log[1..], After(log[0], from), to)
  }

  lemma {:induction false} ReplaysMore<T>(log: seq<Op<T>>, from: seq<T>, mid: seq<T>, op: Op<T>)
    requires Replays(log, from, mid) && Possible(op, mid)
    ensures Replays(log + [op], from, After(op, mid))
  {
    if log == [] {
      assert [op][1..] == [];
    } else {
      ReplaysMore(log[1..], After(log[0], from), mid, op);
      assert (log + [op])[1..] == log[1..] + [op];
    }
  }

  ghost function Sent<T>(log: seq<Op<T>>): (ms: seq<T>) {
    if log == [] then [] else (if log[0].Append? then [log[0].m] else []) + Sent(log[1..])
  }

  ghost function Got<T>(log: seq<Op<T>>): (ms: seq<T>) {
    if log == [] then [] else (if log[0].Take? then [log[0].m] else []) + Got(log[1..])
  }

  /** Without urgent messages and resets, messages come out in the order they went in, each exactly once. */
  lemma {:induction false} FirstInFirstOut<T>(log: seq<Op<T>>, from: seq<T>, to: seq<T>)
    requires Replays(log, from, to)
    requires forall i :: 0 <= i < |log| ==> !log[i].Prepend? && !log[i].Clear?
    ensures Got(log) + to == from + Sent(log)
  {
    if log != [] {
      var rest := log[1..];
      FirstInFirstOut(rest, After(log[0], from), to);
      assert [] + Got(rest) == Got(rest) && [] + Sent(rest) == Sent(rest);
      if log[0].Append? {
        Regroup(from, [log[0].m], Sent(rest));
      } else if log[0].Take? {
        Regroup([log[0].m], Got(rest), to);
        Regroup([log[0].m], from[1..], Sent(rest));
        assert from == [log[0].m] + from[1..];
      }
    }
  }

  lemma Regroup<T>(a: seq<T>, b: seq<T>, c: seq<T>)
    ensures (a + b) + c == a + (b + c)
  {
  }
}
