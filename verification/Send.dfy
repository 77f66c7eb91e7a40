/** Writing buffers to a TCP socket (app_send_tcp, default_send_queue). */
module Send {
  import opened Framing
  import opened AppModel

  /** What one call of send(2) does: take some bytes, ask to try again, or fail for good. */
  datatype Call = Takes(count: nat) | Again | Broken

  /** The answers the kernel gives to the calls made one after the other. */
  type Calls = nat -> Call

  predicate Progresses(c: Call) {
    c.Broken? || (c.Takes? && c.count > 0)
  }

  /** The kernel never says "try again" forever. */
  ghost predicate Fair(calls: Calls) {
    forall i: nat :: ProgressFrom(calls, i)
  }

  ghost predicate ProgressFrom(calls: Calls, i: nat) {
    exists j: nat :: i <= j && Progresses(calls(j))
  }

  ghost predicate NeverBroken(calls: Calls, from: nat, to: nat) {
    forall i: nat :: from <= i < to ==> calls(i) != Broken
  }

  /** The loop ends, and has written the whole buffer iff the kernel did not fail on the way. */
  method SendTcp(buffer: seq<byte>, calls: Calls, from: nat) returns (ok: bool, wire: seq<byte>, next: nat)
    requires Fair(calls)
    ensures from <= next && wire <= buffer
    ensures ok <==> wire == buffer
    ensures ok <==> NeverBroken(calls, from, next)
  {
    var total: nat := 0;
    next := from;
    wire := [];
    assert ProgressFrom(calls, next);
    ghost var target: nat :| next <= target && Progresses(calls(target));
    while total != |buffer|
      invariant total <= |buffer| && wire == buffer[..total]
      invariant from <= next <= target && Progresses(calls(target))
      invariant NeverBroken(calls, from, next)
      decreases |buffer| - total, target - next
    {
      var c := calls(next);
      next := next + 1;
      match c {
        case Broken =>
          assert calls(next - 1) == Broken;
          return false, wire, next;
        case Again =>
        case Takes(n) =>
          var bytes := if n <= |buffer| - total then n else |buffer| - total;
          wire := wire + buffer[total..total + bytes];
          total := total + bytes;
      }
      if target < next {
        assert ProgressFrom(calls, next);
        target :| next <= target && Progresses(calls(target));
      }
    }
    ok := true;
  }

  lemma {:induction false} FlattenConcat(a: seq<seq<byte>>, b: seq<seq<byte>>)
    ensures Flatten(a + b) == Flatten(a) + Flatten(b)
  {
    if a == [] {
      assert a + b == b;
    } else {
      assert (a + b)[1..] == a[1..] + b;
      FlattenConcat(a[1..], b);
    }
  }

  /** The queue is written in order; what reaches the wire is all of it iff the kernel did not
      fail, and otherwise a proper prefix. */
  method SendQueue(queue: seq<seq<byte>>, calls: Calls, from: nat)
    returns (ok: bool, wire: seq<byte>, left: seq<seq<byte>>, next: nat)
    requires Fair(calls)
    ensures from <= next && wire <= Flatten(queue)
    ensures ok <==> wire == Flatten(queue)
    ensures ok <==> NeverBroken(calls, from, next)
    ensures ok ==> left == []
  {
    left, wire, next := queue, [], from;
    ghost var done: seq<seq<byte>> := [];
    while left != []
      invariant done + left == queue && wire == Flatten(done)
      invariant from <= next && NeverBroken(calls, from, next)
      decreases |left|
    {
      var buffer := left[0];
      left := left[1..];
      var sent, bytes, n := SendTcp(buffer, calls, next);
      FlattenConcat(done + [buffer], left);
      FlattenAppend(done, buffer);
      assert (done + [buffer]) + left == queue;
      wire, next, done := wire + bytes, n, done + [buffer];
      if !sent {
        assert bytes == buffer[..|bytes|] && |bytes| < |buffer|;
        return false, wire, left, next;
      }
    }
    assert done == queue;
    ok := true;
  }

  /** How the loop ended, as the rest of the model sees it. */
  function Outcome(ok: bool, wire: seq<byte>): Kernel {
    if ok then TakesAll else FailsAfter(|wire|)
  }

  lemma OutcomeIsWhatWasWritten(buffer: seq<byte>, ok: bool, wire: seq<byte>)
    requires wire <= buffer && (ok <==> wire == buffer)
    ensures Written(buffer, Outcome(ok, wire)) == wire
    ensures Fails(buffer, Outcome(ok, wire)) <==> !ok
  {
  }
}
