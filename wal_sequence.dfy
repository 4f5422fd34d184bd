/** The expected-event consumer the log's replays are checked with: it holds
    the callbacks still expected, in order, and each callback it receives
    must match the head of that list, which it then removes. */
module WalSequence {
  import opened WalFormat

  class ExpectedEvents {
    /** The callbacks still expected, in order. */
    var pending: seq<Event>
    /** Set once a callback did not match the head of `pending`, or arrived
        when nothing was pending; the consumer then stays failed. */
    var failed: bool

    constructor (expected: seq<Event>)
      ensures pending == expected && !failed
    {
      pending := expected;
      failed := false;
    }

    /** One callback: it must be the next one expected. */
    method Receive(ev: Event)
      modifies this
      ensures !old(failed) && old(pending) != [] && old(pending)[0] == ev ==>
        !failed && pending == old(pending)[1..]
      ensures old(failed) || old(pending) == [] || old(pending)[0] != ev ==> failed
    {
      if failed || pending == [] || pending[0] != ev {
        failed := true;
      } else {
        pending := pending[1..];
      }
    }

    /** Feeds a whole replay to the consumer: it stays sound exactly when the
        replay is a prefix of what was expected, and then only the rest of
        the expectation is pending; so it accepts, with no mismatch and
        nothing pending, exactly when the replay is the expectation. */
    method ReceiveAll(events: seq<Event>)
      requires !failed
      modifies this
      ensures !failed <==> events <= old(pending)
      ensures !failed ==> pending == old(pending)[|events|..]
      ensures (!failed && pending == []) <==> events == old(pending)
    {
      var i := 0;
      while i < |events|
        invariant 0 <= i <= |events|
        invariant !failed <==> events[..i] <= old(pending)
        invariant !failed ==> pending == old(pending)[i..]
      {
        ghost var was := pending;
        Receive(events[i]);
        if !failed {
          assert events[..i + 1] == events[..i] + [was[0]];
          assert old(pending)[..i + 1] == old(pending)[..i] + [old(pending)[i]];
        }
        i := i + 1;
      }
      assert events[..i] == events;
      if !failed && pending == [] {
        assert old(pending) == old(pending)[..|events|] + old(pending)[|events|..];
      }
    }
  }
}
