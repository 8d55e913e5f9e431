/**
 The receiving side of a session's counters: a circular bitmap over the last 256 counters that
 decides which packets are replays (RFC 6479).
 */
module ReplayWindow {
  import opened Wrappers
  import opened Wire

  const WORD_SIZE: nat := 64
  const N_WORDS: nat := 4
  const N_BITS: nat := 256

  datatype WireGuardError = InvalidCounter | DuplicateCounter

  // -------------------------------------------------------------------------
  // Bits of the circular bitmap
  // -------------------------------------------------------------------------

  /** A 64-bit word as its bits, least significant first. */
  type BitWord = w: seq<bool> | |w| == WORD_SIZE witness seq(WORD_SIZE, _ => false)

  /** Whether the bit of counter `idx` is set. */
  ghost predicate Bit(bitmap: seq<BitWord>, idx: nat)
    requires |bitmap| == N_WORDS
  {
    bitmap[idx % N_BITS / WORD_SIZE][idx % N_BITS % WORD_SIZE]
  }

  lemma SameSlot(i: nat, c: nat)
    ensures c % N_BITS == i % N_BITS <==>
            c % N_BITS / WORD_SIZE == i % N_BITS / WORD_SIZE && c % N_BITS % WORD_SIZE == i % N_BITS % WORD_SIZE
  {
  }

  /** Counters less than 256 apart have different bits. */
  lemma DistinctSlots(i: nat, c: nat)
    requires i < c < i + N_BITS
    ensures i % N_BITS != c % N_BITS
  {
  }

  /** An aligned word of counters owns its bits among all counters of a window that reaches past it. */
  lemma WordSlots(i: nat, c: nat)
    requires i % WORD_SIZE == 0 && i < c + 192 && c < i + N_BITS
    ensures c % N_BITS / WORD_SIZE == i % N_BITS / WORD_SIZE <==> i <= c < i + WORD_SIZE
  {
    WordOf(i);
    WordOf(c);
  }

  lemma WordOf(i: nat)
    ensures i % N_BITS / WORD_SIZE == i / WORD_SIZE % N_WORDS
  {
  }

  // -------------------------------------------------------------------------
  // What the window has to remember
  // -------------------------------------------------------------------------

  /** `next` is one past the highest accepted counter, and the bitmap is the accepted set on the window. */
  ghost predicate Remembers(bitmap: seq<BitWord>, next: nat, accepted: set<nat>)
    requires |bitmap| == N_WORDS
  {
    && (forall c :: c in accepted ==> c < next)
    && (next > 0 ==> next - 1 in accepted)
    && (forall c: nat :: next <= c + N_BITS && c < next ==> (Bit(bitmap, c) <==> c in accepted))
  }

  /** A counter is fresh if it has not fallen out of the window and was never accepted. */
  predicate Acceptable(next: nat, accepted: set<nat>, counter: nat)
  {
    next <= counter + N_BITS && counter !in accepted
  }

  /** Bits of the window that ends at `counter`, once everything from `next` up to `i` is cleared. */
  ghost predicate ClearedUpTo(before: seq<BitWord>, now: seq<BitWord>, next: nat, i: nat, counter: nat)
    requires |before| == N_WORDS && |now| == N_WORDS
  {
    forall c: nat :: counter < c + N_BITS && c < i ==> (Bit(now, c) <==> c < next && Bit(before, c))
  }

  /** `after` is `before` with the bit of `idx` set. */
  ghost predicate SetAt(before: seq<BitWord>, after: seq<BitWord>, idx: nat)
    requires |before| == N_WORDS && |after| == N_WORDS
  {
    forall c: nat :: Bit(after, c) <==> c % N_BITS == idx % N_BITS || Bit(before, c)
  }

  lemma RemembersInOrder(before: seq<BitWord>, after: seq<BitWord>, next: nat, accepted: set<nat>)
    requires |before| == N_WORDS && |after| == N_WORDS
    requires Remembers(before, next, accepted) && SetAt(before, after, next)
    ensures Remembers(after, next + 1, accepted + {next})
  {
    forall c: nat | next + 1 <= c + N_BITS && c < next + 1
      ensures Bit(after, c) <==> c in accepted + {next}
    {
      if c < next {
        DistinctSlots(c, next);
      }
    }
  }

  lemma RemembersReordered(before: seq<BitWord>, after: seq<BitWord>, next: nat, accepted: set<nat>, counter: nat)
    requires |before| == N_WORDS && |after| == N_WORDS
    requires Remembers(before, next, accepted) && SetAt(before, after, counter)
    requires counter < next <= counter + N_BITS
    ensures Remembers(after, next, accepted + {counter})
  {
    forall c: nat | next <= c + N_BITS && c < next
      ensures Bit(after, c) <==> c in accepted + {counter}
    {
      if c != counter {
        DistinctSlots(if c < counter then c else counter, if c < counter then counter else c);
      }
    }
  }

  lemma RemembersJump(before: seq<BitWord>, mid: seq<BitWord>, after: seq<BitWord>, next: nat, accepted: set<nat>, counter: nat)
    requires |before| == N_WORDS && |mid| == N_WORDS && |after| == N_WORDS && next < counter
    requires Remembers(before, next, accepted) && ClearedUpTo(before, mid, next, counter, counter)
    requires SetAt(mid, after, counter)
    ensures Remembers(after, counter + 1, accepted + {counter})
  {
  }

  lemma {:induction false} AtMostNext(accepted: set<nat>, next: nat)
    requires forall c :: c in accepted ==> c < next
    ensures |accepted| <= next
  {
    if next > 0 {
      AtMostNext(accepted - {next - 1}, next - 1);
    } else {
      assert accepted == {};
    }
  }

  // -------------------------------------------------------------------------
  // Whole runs
  // -------------------------------------------------------------------------

  /** What is known after a run of counters: the accepted ones, and one past the highest of them. */
  datatype History = History(accepted: set<nat>, next: nat)

  ghost function After(run: seq<nat>): (h: History)
    ensures forall c :: c in h.accepted ==> c < h.next && c in run
    ensures h.next > 0 ==> h.next - 1 in h.accepted
  {
    if run == [] then History({}, 0)
    else
      var h, c := After(run[..|run| - 1]), run[|run| - 1];
      if Acceptable(h.next, h.accepted, c) then
        History(h.accepted + {c}, if c < h.next then h.next else c + 1)
      else h
  }

  /** Packet `i` of the run was accepted. */
  ghost predicate Accepts(run: seq<nat>, i: nat)
    requires i < |run|
  {
    var h := After(run[..i]);
    Acceptable(h.next, h.accepted, run[i])
  }

  lemma {:induction false} AcceptedStays(run: seq<nat>, i: nat, j: nat)
    requires i <= j <= |run|
    ensures After(run[..i]).accepted <= After(run[..j]).accepted
    ensures After(run[..i]).next <= After(run[..j]).next
  {
    if i < j {
      AcceptedStays(run, i, j - 1);
      assert run[..j][..j - 1] == run[..j - 1];
    }
  }

  /** No counter is accepted twice, however far apart the two packets are. */
  lemma NeverReplayed(run: seq<nat>, i: nat, j: nat)
    requires i < j < |run| && run[i] == run[j] && Accepts(run, i)
    ensures !Accepts(run, j)
  {
    assert run[..i + 1][..i] == run[..i];
    AcceptedStays(run, i + 1, j);
  }

  /** No counter of the run arrives after one that is 256 or more ahead of it. */
  ghost predicate NearlyOrdered(run: seq<nat>)
  {
    forall i, j {:trigger CloseBehind(run, i, j)} :: 0 <= i < j < |run| ==> CloseBehind(run, i, j)
  }

  ghost predicate CloseBehind(run: seq<nat>, i: nat, j: nat)
    requires i < |run| && j < |run|
  {
    run[i] < run[j] + N_BITS
  }

  lemma NeverTooFarBack(run: seq<nat>, n: nat)
    requires NearlyOrdered(run) && n < |run|
    ensures After(run[..n]).next <= run[n] + N_BITS
  {
    var h := After(run[..n]);
    if h.next > 0 {
      assert h.next - 1 in run[..n];
      var i: nat :| i < n && run[i] == h.next - 1;
      assert CloseBehind(run, i, n);
    }
  }

  lemma AfterOneMore(run: seq<nat>, n: nat)
    requires n < |run| && After(run[..n]).next <= run[n] + N_BITS
    ensures After(run[..n + 1]).accepted == After(run[..n]).accepted + {run[n]}
  {
    assert run[..n + 1][..n] == run[..n];
  }

  /** What one more packet does to the history, and whether it is accepted. */
  lemma {:induction false} AfterExtended(run: seq<nat>, counter: nat)
    ensures var h := After(run);
            && (Accepts(run + [counter], |run|) <==> Acceptable(h.next, h.accepted, counter))
            && After(run + [counter]) ==
               if Acceptable(h.next, h.accepted, counter)
               then History(h.accepted + {counter}, if counter < h.next then h.next else counter + 1) else h
  {
    assert (run + [counter])[..|run|] == run;
  }

  lemma OneMoreSeen(seen: set<nat>, before: seq<nat>, counter: nat)
    requires forall c :: c in seen <==> c in before
    ensures forall c :: c in seen + {counter} <==> c in before + [counter]
  {
  }

  lemma {:induction false} NothingLost(run: seq<nat>, n: nat)
    requires NearlyOrdered(run) && n <= |run|
    ensures forall c :: c in After(run[..n]).accepted <==> c in run[..n]
  {
    if n > 0 {
      NothingLost(run, n - 1);
      NeverTooFarBack(run, n - 1);
      AfterOneMore(run, n - 1);
      OneMoreSeen(After(run[..n - 1]).accepted, run[..n - 1], run[n - 1]);
      assert run[..n] == run[..n - 1] + [run[n - 1]];
    }
  }

  /** Reordering by less than the window loses nothing: a packet is accepted exactly if its counter arrives first. */
  lemma ReorderingTolerated(run: seq<nat>, i: nat)
    requires NearlyOrdered(run) && i < |run|
    ensures Accepts(run, i) <==> run[i] !in run[..i]
  {
    NothingLost(run, i);
    NeverTooFarBack(run, i);
  }

  class ReceivingKeyCounterValidator {
    /** One past the highest counter received. */
    var next: nat
    /** How many packets were received. */
    var receiveCnt: nat
    const bitmap: array<BitWord>
    /** Every counter accepted so far. */
    ghost var accepted: set<nat>
    /** Every counter presented so far, accepted or not. */
    ghost var run: seq<nat>

    ghost predicate Valid()
      reads this, bitmap
    {
      && bitmap.Length == N_WORDS
      && next <= REJECT_AFTER_MESSAGES
      && Remembers(bitmap[..], next, accepted)
    }

    /** Holds between packets: the count is exact, and the window is what the whole run leads to. */
    ghost predicate Counted()
      reads this
    {
      receiveCnt == |accepted| && After(run) == History(accepted, next)
    }

    constructor ()
      ensures Valid() && Counted() && run == [] && fresh(bitmap)
    {
      next := 0;
      receiveCnt := 0;
      bitmap := new BitWord[N_WORDS](_ => seq(WORD_SIZE, _ => false));
      accepted := {};
      run := [];
    }

    method SetBit(idx: nat)
      requires bitmap.Length == N_WORDS
      modifies bitmap
      ensures SetAt(old(bitmap[..]), bitmap[..], idx)
    {
      var bitIdx := idx % N_BITS;
      var word, bit := bitIdx / WORD_SIZE, bitIdx % WORD_SIZE;
      bitmap[word] := bitmap[word][bit := true];
      forall c: nat
        ensures Bit(bitmap[..], c) <==> c % N_BITS == idx % N_BITS || old(Bit(bitmap[..], c))
      {
        SameSlot(idx, c);
      }
    }

    method ClearBit(idx: nat)
      requires bitmap.Length == N_WORDS
      modifies bitmap
      ensures forall c: nat :: Bit(bitmap[..], c) <==> c % N_BITS != idx % N_BITS && old(Bit(bitmap[..], c))
    {
      var bitIdx := idx % N_BITS;
      var word, bit := bitIdx / WORD_SIZE, bitIdx % WORD_SIZE;
      bitmap[word] := bitmap[word][bit := false];
      forall c: nat
        ensures Bit(bitmap[..], c) <==> c % N_BITS != idx % N_BITS && old(Bit(bitmap[..], c))
      {
        SameSlot(idx, c);
      }
    }

    /** Clears the word that contains `idx`. */
    method ClearWord(idx: nat)
      requires bitmap.Length == N_WORDS
      modifies bitmap
      ensures forall c: nat :: Bit(bitmap[..], c) <==>
                c % N_BITS / WORD_SIZE != idx % N_BITS / WORD_SIZE && old(Bit(bitmap[..], c))
    {
      var bitIdx := idx % N_BITS;
      bitmap[bitIdx / WORD_SIZE] := seq(WORD_SIZE, _ => false);
    }

    method CheckBit(idx: nat) returns (isSet: bool)
      requires bitmap.Length == N_WORDS
      ensures isSet <==> Bit(bitmap[..], idx)
    {
      var bitIdx := idx % N_BITS;
      isSet := bitmap[bitIdx / WORD_SIZE][bitIdx % WORD_SIZE];
    }

    /** Tells, without recording anything, whether a counter would be accepted now. */
    method WillAccept(counter: nat) returns (r: Result<(), WireGuardError>)
      requires Valid()
      ensures r.Ok? <==> Acceptable(next, accepted, counter)
      ensures r.Err? ==> r.error == if counter + N_BITS < next then InvalidCounter else DuplicateCounter
    {
      if counter >= next {
        return Ok(());
      }
      if counter + N_BITS < next {
        return Err(InvalidCounter);
      }
      var seen := CheckBit(counter);
      if !seen {
        return Ok(());
      } else {
        return Err(DuplicateCounter);
      }
    }

    /** Accepts a counter exactly if it is fresh, and records it; a refused counter changes nothing. */
    method MarkDidReceive(counter: nat) returns (r: Result<(), WireGuardError>)
      requires Valid() && counter < REJECT_AFTER_MESSAGES
      modifies this`next, this`accepted, bitmap
      ensures Valid()
      ensures r.Ok? <==> Acceptable(old(next), old(accepted), counter)
      ensures r.Ok? ==> accepted == old(accepted) + {counter}
      ensures r.Ok? ==> next == if counter < old(next) then old(next) else counter + 1
      ensures r.Err? ==> r.error == InvalidCounter
      ensures r.Err? ==> next == old(next) && accepted == old(accepted) && bitmap[..] == old(bitmap[..])
    {
      if counter + N_BITS < next {
        return Err(InvalidCounter);
      }
      if counter == next {
        SetBit(counter);
        RemembersInOrder(old(bitmap[..]), bitmap[..], next, accepted);
        next := next + 1;
        accepted := accepted + {counter};
        return Ok(());
      }
      if counter < next {
        var seen := CheckBit(counter);
        if seen {
          return Err(InvalidCounter);
        }
        SetBit(counter);
        RemembersReordered(old(bitmap[..]), bitmap[..], next, accepted, counter);
        accepted := accepted + {counter};
        return Ok(());
      }
      ClearSkipped(counter);
      ghost var cleared := bitmap[..];
      SetBit(counter);
      RemembersJump(old(bitmap[..]), cleared, bitmap[..], next, accepted, counter);
      next := counter + 1;
      accepted := accepted + {counter};
      return Ok(());
    }

    /** Marks the skipped counters `next..counter` as not received. */
    method ClearSkipped(counter: nat)
      requires bitmap.Length == N_WORDS && next < counter < REJECT_AFTER_MESSAGES
      modifies bitmap
      ensures ClearedUpTo(old(bitmap[..]), bitmap[..], next, counter, counter)
    {
      if counter - next >= N_BITS {
        var k := 0;
        while k < bitmap.Length
          invariant k <= bitmap.Length
          invariant forall j, b :: 0 <= j < k && 0 <= b < WORD_SIZE ==> !bitmap[j][b]
        {
          bitmap[k] := seq(WORD_SIZE, _ => false);
          k := k + 1;
        }
      } else {
        var i := next;
        while i % WORD_SIZE != 0 && i < counter
          decreases counter - i
          invariant next <= i <= counter
          invariant ClearedUpTo(old(bitmap[..]), bitmap[..], next, i, counter)
        {
          StepClearedBit(i, counter);
          ClearBit(i);
          i := i + 1;
        }
        while i + WORD_SIZE < counter
          invariant next <= i <= counter && (i % WORD_SIZE == 0 || i == counter)
          invariant ClearedUpTo(old(bitmap[..]), bitmap[..], next, i, counter)
        {
          StepClearedWord(i, counter);
          ClearWord(i);
          i := (i + WORD_SIZE) / WORD_SIZE * WORD_SIZE;
        }
        while i < counter
          invariant next <= i <= counter
          invariant ClearedUpTo(old(bitmap[..]), bitmap[..], next, i, counter)
        {
          StepClearedBit(i, counter);
          ClearBit(i);
          i := i + 1;
        }
      }
    }

    lemma StepClearedBit(i: nat, counter: nat)
      requires i < counter
      ensures forall c: nat :: counter < c + N_BITS && c < counter && counter < i + N_BITS ==> (c % N_BITS == i % N_BITS <==> c == i)
    {
    }

    lemma StepClearedWord(i: nat, counter: nat)
      requires i % WORD_SIZE == 0 && i + WORD_SIZE < counter
      ensures forall c: nat :: counter < c + N_BITS && c < counter && counter < i + N_BITS ==>
                (c % N_BITS / WORD_SIZE == i % N_BITS / WORD_SIZE <==> i <= c < i + WORD_SIZE)
    {
      forall c: nat | counter < c + N_BITS && c < counter && counter < i + N_BITS
        ensures c % N_BITS / WORD_SIZE == i % N_BITS / WORD_SIZE <==> i <= c < i + WORD_SIZE
      {
        WordSlots(i, c);
      }
    }

    /** Marks an authenticated packet as received and counts it. */
    method ReceivingCounterMark(counter: nat) returns (r: Result<(), WireGuardError>)
      requires Valid() && Counted() && counter < REJECT_AFTER_MESSAGES
      modifies this, bitmap
      ensures Valid() && Counted()
      ensures run == old(run) + [counter] && (r.Ok? <==> Accepts(run, |old(run)|))
      ensures accepted == if r.Ok? then old(accepted) + {counter} else old(accepted)
      ensures receiveCnt <= next
    {
      AfterExtended(run, counter);
      r := MarkDidReceive(counter);
      run := run + [counter];
      if r.Ok? {
        receiveCnt := receiveCnt + 1;
      }
      AtMostNext(accepted, next);
    }
  }
}
