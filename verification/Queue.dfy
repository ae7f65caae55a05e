/**
 The Queue object itself: its storage and its flag word, updated in place by the
 critical sections of put_event, signal_exit and get_events.  Each section is
 proved to make the same step as the protocol of module AsyncQueue.
 */
module Queue {
  import opened AsyncQueue

  const EVENT: bv8 := 0x01
  const QUEUE: bv8 := 0x02
  const EXIT: bv8 := 0x04
  const DRAIN: bv8 := 0x08
  const ERROR_BIT: bv8 := 0x10
  const ERROR_AFTER: bv8 := 0x20

  predicate Has(word: bv8, bit: bv8) {
    word & bit != 0
  }

  function FlagsOf(word: bv8): Flags {
    Flags(Has(word, QUEUE), Has(word, EXIT), Has(word, DRAIN))
  }

  function ReturnedOf(word: bv8): Returned {
    Returned(Has(word, EVENT), Has(word, EXIT), Has(word, DRAIN))
  }

  class EventQueue {
    var queue: seq<Event>
    var flags: bv8

    /** The object holds the queue and flags of protocol state s. */
    ghost predicate Represents(s: State)
      reads this
    {
      && queue == s.queue
      && FlagsOf(flags) == s.flags
      && flags & !(QUEUE | EXIT | DRAIN) == 0
    }

    constructor (ghost len: nat)
      ensures Represents(Init(len))
    {
      queue := [];
      flags := DRAIN;
    }

    /** put_event between taking the permit and giving up the mutex. */
    method PutSection(ev: Event, ghost s: State) returns (ret: bv8, keepPermit: bool)
      requires Represents(s)
      modifies this
      ensures Represents(PutCritical(s, ev))
      ensures keepPermit <==> !s.flags.exit
      ensures ret == flags && !Has(ret, ERROR_BIT) && !Has(ret, ERROR_AFTER)
    {
      ret := ERROR_BIT;
      ret := ret | flags;
      if Has(flags, EXIT) {
        ret := ret & !(ERROR_BIT | ERROR_AFTER);
        return ret, false;
      }
      queue := queue + [ev];
      ret := ret | ERROR_AFTER;
      flags := flags | QUEUE;
      ret := ret | flags;
      ret := ret & !(ERROR_BIT | ERROR_AFTER);
      keepPermit := true;
    }

    /** signal_exit under the mutex; signal tells whether the event is signalled afterwards. */
    method ExitSection(mode: ExitMode, ghost s: State) returns (ret: bv8, signal: bool)
      requires Represents(s)
      modifies this
      ensures Represents(ExitCritical(s, mode))
      ensures signal <==> !s.flags.exit
      ensures ret == flags
    {
      ret := 0;
      ret := ret | flags;
      signal := !Has(flags, EXIT);
      if signal {
        if mode == Draining {
          flags := flags | DRAIN;
        } else {
          flags := flags & !DRAIN;
        }
        flags := flags | EXIT;
        ret := flags;
      }
    }

    /** One pass of the loop in get_events: the branch taken, the batch swapped into the caller's
        buffer, the permits to release and the value to return. */
    method GetSection(buf: seq<Event>, ghost s: State)
      returns (branch: Branch, batch: seq<Event>, permits: nat, ret: bv8)
      requires Represents(s) && s.consumer == Enter && buf == s.buf
      requires FlagInv(s)
      modifies this
      ensures branch == BranchOf(s.flags)
      ensures Represents(GetCritical(s)) && batch == GetCritical(s).buf
      ensures permits == (match branch case Take => |s.queue| case Discard => 1 case _ => 0)
      ensures ReturnedOf(ret) == Returned(branch == Take, s.flags.exit, s.flags.drain)
    {
      batch, permits := buf, 0;
      ret := flags;
      if (Has(QUEUE, flags) && !Has(EXIT, flags))
         || (EXIT | DRAIN | QUEUE) & flags == EXIT | DRAIN | QUEUE {
        assert queue != [];
        var count := |queue|;
        queue, batch := batch, queue;
        queue := [];
        flags := flags & !QUEUE;
        while permits != count
          invariant permits <= count
        {
          permits := permits + 1;
        }
        ret := flags | EVENT;
        branch := Take;
      } else if (EXIT | QUEUE) & flags == EXIT | QUEUE {
        assert queue != [];
        queue := [];
        flags := flags & !QUEUE;
        permits := 1;
        ret := flags;
        branch := Discard;
      } else if Has(EXIT, flags) {
        branch := Leave;
      } else {
        branch := Block;
      }
    }
  }

  /** The tests of QueueThread::run on the value get_events returned. */
  method AfterDelivery(qflags: bv8) returns (next: Consumer)
    ensures next == Decision(ReturnedOf(qflags))
  {
    if (EXIT | DRAIN | EVENT) & qflags == EXIT | DRAIN | EVENT {
      next := Enter;
    } else if Has(EXIT, qflags) {
      next := Finished;
    } else {
      next := Enter;
    }
  }
}
