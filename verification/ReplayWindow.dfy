/**
 The replay window: a ring bitmap of 128 words of 64 bits that must agree with the unbounded set of
 counters accepted so far, for every run of 64-bit counters.
 */
module ReplayWindow {

  const WINDOW := 8192
  const WORDS := 128
  const WORD_BITS := 64
  const TWO_64 := 0x1_0000_0000_0000_0000

  datatype Verdict = Accepted | Replayed | TooOld

  // ----- specification -----

  /** Every counter accepted so far; `highest` is the largest, or 0 before the first. */
  datatype History = History(initialized: bool, highest: nat, accepted: set<nat>)

  const FRESH := History(false, 0, {})

  ghost predicate Coherent(h: History)
  {
    if h.initialized then h.highest in h.accepted && forall c :: c in h.accepted ==> c <= h.highest
    else h == FRESH
  }

  /** A counter is accepted iff the window is fresh, the counter is a new highest, or it lies within
      the window and was never accepted. */
  function Judge(h: History, counter: nat): (v: Verdict)
  {
    if !h.initialized || counter > h.highest then Accepted
    else if h.highest - counter >= WINDOW then TooOld
    else if counter in h.accepted then Replayed
    else Accepted
  }

  function Recorded(h: History, counter: nat): (r: History)
  {
    if Judge(h, counter) != Accepted then h
    else History(true, if h.initialized && counter <= h.highest then h.highest else counter,
                 h.accepted + {counter})
  }

  lemma RecordedIsCoherent(h: History, counter: nat)
    requires Coherent(h)
    ensures Coherent(Recorded(h, counter))
    ensures h.accepted <= Recorded(h, counter).accepted
    ensures h.initialized ==> Recorded(h, counter).initialized && h.highest <= Recorded(h, counter).highest
  {
  }

  ghost function After(h: History, counters: seq<nat>): (r: History)
  {
    if |counters| == 0 then h
    else Recorded(After(h, counters[..|counters| - 1]), counters[|counters| - 1])
  }

  /** Whatever a fresh window has accepted is in its history. */
  lemma {:induction false} AcceptedIsRecorded(counters: seq<nat>, i: nat)
    requires i < |counters|
    requires Judge(After(FRESH, counters[..i]), counters[i]) == Accepted
    ensures Coherent(After(FRESH, counters))
    ensures counters[i] in After(FRESH, counters).accepted
    decreases |counters|
  {
    var n := |counters| - 1;
    var front := counters[..n];
    AfterIsCoherent(front);
    RecordedIsCoherent(After(FRESH, front), counters[n]);
    if i < n {
      assert front[..i] == counters[..i];
      AcceptedIsRecorded(front, i);
    }
  }

  lemma {:induction false} AfterIsCoherent(counters: seq<nat>)
    ensures Coherent(After(FRESH, counters))
  {
    if |counters| != 0 {
      AfterIsCoherent(counters[..|counters| - 1]);
      RecordedIsCoherent(After(FRESH, counters[..|counters| - 1]), counters[|counters| - 1]);
    }
  }

  /** No run accepts the same counter twice, across jumps of any size. */
  lemma NeverAcceptedTwice(counters: seq<nat>, i: nat, j: nat)
    requires i < j < |counters| && counters[i] == counters[j]
    requires Judge(After(FRESH, counters[..i]), counters[i]) == Accepted
    ensures Judge(After(FRESH, counters[..j]), counters[j]) != Accepted
  {
    assert counters[..j][..i] == counters[..i];
    AcceptedIsRecorded(counters[..j], i);
  }

  /** Counter number `i` of the run is accepted. */
  ghost predicate Takes(counters: seq<nat>, i: nat)
    requires i < |counters|
  {
    Judge(After(FRESH, counters[..i]), counters[i]) == Accepted
  }

  lemma LastIsRecorded(counters: seq<nat>)
    requires |counters| > 0
    ensures var n := |counters| - 1;
            After(FRESH, counters).accepted
            == After(FRESH, counters[..n]).accepted + if Takes(counters, n) then {counters[n]} else {}
    ensures forall j: nat :: j < |counters| - 1 ==> (Takes(counters, j) <==> Takes(counters[..|counters| - 1], j))
  {
    forall j: nat | j < |counters| - 1 ensures Takes(counters, j) <==> Takes(counters[..|counters| - 1], j) {
      assert counters[..|counters| - 1][..j] == counters[..j];
    }
  }

  /** The history of a run is made of what it accepted. */
  lemma {:induction false} HistoryIs(counters: seq<nat>)
    ensures Coherent(After(FRESH, counters))
    ensures forall c :: c in After(FRESH, counters).accepted <==>
                          exists j: nat :: j < |counters| && Takes(counters, j) && counters[j] == c
  {
    AfterIsCoherent(counters);
    if |counters| > 0 {
      hide After, Takes, Coherent;
      var n := |counters| - 1;
      var front := counters[..n];
      HistoryIs(front);
      LastIsRecorded(counters);
      var h, r := After(FRESH, front), After(FRESH, counters);
      forall c ensures c in r.accepted <==> exists j: nat :: j < |counters| && Takes(counters, j) && counters[j] == c {
        if c in h.accepted {
          var j: nat :| j < n && Takes(front, j) && front[j] == c;
          assert Takes(counters, j) && counters[j] == c;
        } else if c in r.accepted {
          assert Takes(counters, n) && counters[n] == c;
        }
        if j: nat :| j < |counters| && Takes(counters, j) && counters[j] == c {
          if j < n { assert Takes(front, j) && front[j] == c; }
        }
      }
    }
  }

  /** Over every run a counter is accepted exactly when it was not accepted before and no counter accepted before is
      8192 or more ahead of it. */
  lemma AcceptedExactly(counters: seq<nat>, i: nat)
    requires i < |counters|
    ensures Takes(counters, i) <==>
              forall j: nat :: j < i && Takes(counters, j) ==>
                                 counters[j] != counters[i] && counters[j] < counters[i] + 8192
  {
    var front := counters[..i];
    HistoryIs(front);
    forall j: nat | j < i ensures Takes(counters, j) <==> Takes(front, j) {
      assert front[..j] == counters[..j];
    }
    var h, c := After(FRESH, front), counters[i];
    if Takes(counters, i) {
      forall j: nat | j < i && Takes(counters, j) ensures counters[j] != c && counters[j] < c + 8192 {
        assert Takes(front, j) && front[j] in h.accepted;
      }
    } else {
      var worst := if h.highest - c >= WINDOW then h.highest else c;
      assert worst in h.accepted;
      var j: nat :| j < |front| && Takes(front, j) && front[j] == worst;
      assert Takes(counters, j) && counters[j] == worst;
    }
  }

  // ----- the bitmap -----

  function WordOf(counter: nat): (w: nat)
    ensures w < WORDS
  {
    counter / WORD_BITS % WORDS
  }

  function BitOf(counter: nat): (b: nat)
    ensures b < WORD_BITS
  {
    counter % WORD_BITS
  }

  /** Two counters share a bit exactly when they are congruent modulo the window size. */
  lemma SharedBit(a: nat, b: nat)
    ensures WordOf(a) == WordOf(b) && BitOf(a) == BitOf(b) <==> a % WINDOW == b % WINDOW
  {
    BitPosition(a);
    BitPosition(b);
  }

  lemma BitPosition(c: nat)
    ensures c % WINDOW == WordOf(c) * WORD_BITS + BitOf(c)
  {
    var q, b := c / WORD_BITS, c % WORD_BITS;
    var w, r := q / WORDS, q % WORDS;
    assert c == q * WORD_BITS + b && q == w * WORDS + r;
    assert c == w * WINDOW + (r * WORD_BITS + b);
  }

  lemma WithinOneWindow(a: nat, b: nat)
    requires a < b < a + WINDOW
    ensures a % WINDOW != b % WINDOW
  {
  }

  class Window {
    var initialized: bool
    var highest: nat
    const seen: array2<bool>
    ghost var accepted: set<nat>

    ghost function Model(): (h: History)
      reads this
    {
      History(initialized, highest, accepted)
    }

    predicate Bit(counter: nat)
      requires seen.Length0 == WORDS && seen.Length1 == WORD_BITS
      reads seen
    {
      seen[WordOf(counter), BitOf(counter)]
    }

    /** Inside the window the bitmap says exactly which counters were accepted. */
    ghost predicate Valid()
      reads this, seen
    {
      && seen.Length0 == WORDS && seen.Length1 == WORD_BITS
      && highest < TWO_64
      && Coherent(Model())
      && (initialized ==> forall c: nat :: c <= highest < c + WINDOW ==> (Bit(c) <==> c in accepted))
      && (!initialized ==> forall w, b :: 0 <= w < WORDS && 0 <= b < WORD_BITS ==> !seen[w, b])
    }

    constructor ()
      ensures Valid() && Model() == FRESH && fresh(seen)
    {
      initialized, highest, accepted := false, 0, {};
      seen := new bool[WORDS, WORD_BITS]((_, _) => false);
    }

    method Set(counter: nat)
      requires seen.Length0 == WORDS && seen.Length1 == WORD_BITS
      modifies seen
      ensures forall c: nat :: Bit(c) <==> old(Bit(c)) || c % WINDOW == counter % WINDOW
    {
      seen[WordOf(counter), BitOf(counter)] := true;
      forall c: nat ensures Bit(c) <==> old(Bit(c)) || c % WINDOW == counter % WINDOW {
        SharedBit(c, counter);
      }
    }

    method Clear(counter: nat)
      requires seen.Length0 == WORDS && seen.Length1 == WORD_BITS
      modifies seen
      ensures forall c: nat :: Bit(c) <==> old(Bit(c)) && c % WINDOW != counter % WINDOW
    {
      seen[WordOf(counter), BitOf(counter)] := false;
      forall c: nat ensures Bit(c) <==> old(Bit(c)) && c % WINDOW != counter % WINDOW {
        SharedBit(c, counter);
      }
    }

    /** Forgets every slot the window moves over; all of them when it jumps a whole window. */
    method ClearRange(first: nat, last: nat)
      requires seen.Length0 == WORDS && seen.Length1 == WORD_BITS
      requires 0 < first <= last < TWO_64
      modifies seen
      ensures forall c: nat :: first <= c <= last ==> !Bit(c)
      ensures forall c: nat :: c < first && last < c + WINDOW ==> Bit(c) == old(Bit(c))
    {
      if (last - first + 1) % TWO_64 >= WINDOW {
        forall w, b | 0 <= w < WORDS && 0 <= b < WORD_BITS {
          seen[w, b] := false;
        }
        return;
      }
      var counter := first;
      while true
        invariant first <= counter <= last
        invariant forall c: nat :: first <= c < counter ==> !Bit(c)
        invariant forall c: nat :: c < first && last < c + WINDOW ==> Bit(c) == old(Bit(c))
        decreases last - counter
      {
        forall c: nat | c < first && last < c + WINDOW ensures c % WINDOW != counter % WINDOW {
          WithinOneWindow(c, counter);
        }
        Clear(counter);
        if counter == last { break; }
        counter := counter + 1;
      }
    }

    method Accept(counter: nat) returns (v: Verdict)
      requires Valid() && counter < TWO_64
      modifies this, seen
      ensures Valid() && v == Judge(old(Model()), counter)
      ensures Model() == Recorded(old(Model()), counter)
    {
      if !initialized {
        initialized, highest := true, counter;
        Set(counter);
        accepted := accepted + {counter};
        SlotsAreDistinct(counter);
        return Accepted;
      }
      if counter > highest {
        ClearRange(highest + 1, counter);
        highest := counter;
        Set(counter);
        accepted := accepted + {counter};
        SlotsAreDistinct(counter);
        return Accepted;
      }
      if highest - counter >= WINDOW { return TooOld; }
      if Bit(counter) { return Replayed; }
      Set(counter);
      accepted := accepted + {counter};
      forall c: nat | c <= highest < c + WINDOW && c != counter ensures c % WINDOW != counter % WINDOW {
        if c < counter { WithinOneWindow(c, counter); } else { WithinOneWindow(counter, c); }
      }
      return Accepted;
    }
  }

  lemma SlotsAreDistinct(top: nat)
    ensures forall c: nat :: c < top < c + WINDOW ==> c % WINDOW != top % WINDOW
  {
    forall c: nat | c < top < c + WINDOW ensures c % WINDOW != top % WINDOW {
      WithinOneWindow(c, top);
    }
  }
}
