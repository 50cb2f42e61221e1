/** Recovery of the controller wiring: every assignment of GPIO 4..8 to the five bus
    roles is tried in lexicographic order until the controller answers. */
module PinSweep {
  import opened Options
  import opened Permutations

  datatype PsxPins = PsxPins(data: int, command: int, attention: int, clock: int, ack: int)

  const DEFAULT_PINS := PsxPins(6, 4, 7, 5, 8)
  const SWEEP_START: seq<int> := [4, 5, 6, 7, 8]
  ghost const SWEEP_SET: set<int> := {4, 5, 6, 7, 8}

  function ToPins(values: seq<int>): PsxPins
    requires |values| == 5
  {
    PsxPins(values[0], values[1], values[2], values[3], values[4])
  }

  /** The roles in the order of the sweep; the built-in mapping is one of those it tries. */
  lemma RolesInOrder(values: seq<int>)
    requires |values| == 5
    ensures var p := ToPins(values);
            p.data == values[0] && p.command == values[1] && p.attention == values[2] && p.clock == values[3]
            && p.ack == values[4]
    ensures ToPins([6, 4, 7, 5, 8]) == DEFAULT_PINS
    ensures multiset([6, 4, 7, 5, 8]) == multiset(SWEEP_START)
  {
  }

  /** The active mapping and the "psxcore" preferences that outlive a reboot. */
  class Pins {
    var active: PsxPins
    var valid: bool
    var stored: map<string, int>

    constructor ()
      ensures active == DEFAULT_PINS && !valid && stored == map[]
    {
      active, valid, stored := DEFAULT_PINS, false, map[];
    }

    /** What the next boot will use: the saved mapping, each missing key defaulted. */
    ghost function Saved(): Option<PsxPins>
      reads this
    {
      if valid then
        Some(PsxPins(GetInt("data", DEFAULT_PINS.data), GetInt("cmd", DEFAULT_PINS.command),
                     GetInt("att", DEFAULT_PINS.attention), GetInt("clk", DEFAULT_PINS.clock),
                     GetInt("ack", DEFAULT_PINS.ack)))
      else None
    }

    function GetInt(key: string, default: int): int
      reads this
    {
      if key in stored then stored[key] else default
    }

    /** Boot: the saved mapping becomes active, if the preferences open and hold one. */
    method Begin(nvsOpens: bool)
      modifies this`active
      ensures active == if nvsOpens && Saved().Some? then Saved().value else old(active)
    {
      if nvsOpens {
        if valid {
          active := PsxPins(GetInt("data", DEFAULT_PINS.data), GetInt("cmd", DEFAULT_PINS.command),
                            GetInt("att", DEFAULT_PINS.attention), GetInt("clk", DEFAULT_PINS.clock),
                            GetInt("ack", DEFAULT_PINS.ack));
        }
      }
    }

    /** Replaces the active mapping; persists it only on request. */
    method Set(pins: PsxPins, persist: bool, nvsOpens: bool)
      modifies this
      ensures active == pins
      ensures Saved() == if persist && nvsOpens then Some(pins) else old(Saved())
      ensures !(persist && nvsOpens) ==> valid == old(valid) && stored == old(stored)
    {
      active := pins;
      if !persist {
        return;
      }
      if nvsOpens {
        valid := true;
        stored := stored["data" := active.data];
        stored := stored["cmd" := active.command];
        stored := stored["att" := active.attention];
        stored := stored["clk" := active.clock];
        stored := stored["ack" := active.ack];
      }
    }

    /** Factory reset: defaults active, saved mapping erased. */
    method Reset(nvsOpens: bool)
      modifies this
      ensures active == DEFAULT_PINS
      ensures Saved() == if nvsOpens then None else old(Saved())
    {
      active := DEFAULT_PINS;
      if nvsOpens {
        valid, stored := false, map[];
      }
    }
  }

  /** A saved mapping of which no key is left is the built-in one. */
  lemma MissingKeysDefault(pins: Pins)
    requires pins.valid && pins.stored.Keys !! {"data", "cmd", "att", "clk", "ack"}
    ensures pins.Saved() == Some(DEFAULT_PINS)
  {
    assert forall key :: key in {"data", "cmd", "att", "clk", "ack"} ==> key !in pins.stored;
  }

  /** Rearranges values into their lexicographic successor, in place. Says false, and
      changes nothing, exactly when they already are the greatest arrangement. */
  method NextPermutation(values: array<int>) returns (advanced: bool)
    modifies values
    ensures advanced ==> IsSuccessor(old(values[..]), values[..])
    ensures !advanced ==> values[..] == old(values[..])
    ensures advanced <==> !Greatest(old(values[..]))
  {
    ghost var s := values[..];
    var i := FindPivot(values);
    if i < 0 {
      NonIncreasingIsGreatest(s);
      return false;
    }
    var j := FindRaised(values, i);
    values[i], values[j] := values[j], values[i];
    ReverseFrom(values, i + 1);
    AssembleSuccessor(s, i, j, values[..]);
    return true;
  }

  lemma AssembleSuccessor(s: seq<int>, i: nat, j: nat, t: seq<int>)
    requires i < j < |s| == |t| && s[i] < s[j]
    requires NonIncreasing(s[i + 1..]) && forall a :: j < a < |s| ==> s[a] <= s[i]
    requires forall k :: 0 <= k < i ==> t[k] == s[k]
    requires t[i] == s[j]
    requires forall k :: i < k < |s| ==> t[k] == s[j := s[i]][|s| + i - k]
    ensures IsSuccessor(s, t) && !Greatest(s)
  {
    var d, dj := s[i + 1..], j - i - 1;
    AssembledTail(s, i, j, t);
    SuccessorShape(s[..i], s[i], d, dj, t[i + 1..]);
    assert s == s[..i] + [s[i]] + d;
    assert t == s[..i] + [d[dj]] + t[i + 1..];
    SuccessorMeansNotGreatest(s, t);
  }

  lemma AssembledTail(s: seq<int>, i: nat, j: nat, t: seq<int>)
    requires i < j < |s| == |t| && s[i] < s[j]
    requires NonIncreasing(s[i + 1..]) && forall a :: j < a < |s| ==> s[a] <= s[i]
    requires forall k :: i < k < |s| ==> t[k] == s[j := s[i]][|s| + i - k]
    ensures var d, dj, r := s[i + 1..], j - i - 1, t[i + 1..];
            && (forall a :: dj < a < |d| ==> d[a] <= s[i])
            && NonDecreasing(r) && SameElements(r, d[dj := s[i]])
  {
    var d, dj, r := s[i + 1..], j - i - 1, t[i + 1..];
    forall a | dj < a < |d|
      ensures d[a] <= s[i]
    {
      assert d[a] == s[i + 1 + a];
    }
    LoweredStaysSorted(d, dj, s[i]);
    forall k | 0 <= k < |r|
      ensures r[k] == d[dj := s[i]][|d| - 1 - k]
    {
      assert r[k] == t[i + 1 + k];
    }
    ReversedTail(d[dj := s[i]], r);
  }

  lemma LoweredStaysSorted(d: seq<int>, j: nat, x: int)
    requires NonIncreasing(d) && j < |d| && d[j] > x
    requires forall a :: j < a < |d| ==> d[a] <= x
    ensures NonIncreasing(d[j := x])
  {
  }

  lemma NeverRises(s: seq<int>)
    requires forall a :: 0 <= a < |s| - 1 ==> s[a] >= s[a + 1]
    ensures NonIncreasing(s)
  {
    forall a, b | 0 <= a < b < |s|
      ensures s[a] >= s[b]
    {
      StepsDown(s, a, b);
    }
  }

  lemma {:induction false} StepsDown(s: seq<int>, a: nat, b: nat)
    requires a < b < |s| && forall k :: a <= k < b ==> s[k] >= s[k + 1]
    ensures s[a] >= s[b]
    decreases b - a
  {
    if a + 1 < b {
      StepsDown(s, a + 1, b);
    }
  }

  /** The last index whose value is below its right neighbour; negative if there is none. */
  method FindPivot(values: array<int>) returns (i: int)
    ensures i < 0 ==> NonIncreasing(values[..])
    ensures i >= 0 ==> i + 1 < values.Length && values[i] < values[i + 1] && NonIncreasing(values[i + 1..])
  {
    hide NonIncreasing;
    var count := values.Length;
    i := count - 2;
    while i >= 0 && values[i] >= values[i + 1]
      invariant -2 <= i <= count - 2
      invariant count > 0 ==> i >= -1
      invariant forall a :: i < a < count - 1 && 0 <= a ==> values[a] >= values[a + 1]
    {
      i := i - 1;
    }
    NeverRises(if i < 0 then values[..] else values[i + 1..]);
  }

  /** The last index right of the pivot holding a larger value. */
  method FindRaised(values: array<int>, i: int) returns (j: int)
    requires 0 <= i && i + 1 < values.Length && values[i] < values[i + 1]
    ensures i < j < values.Length && values[i] < values[j]
    ensures forall a :: j < a < values.Length ==> values[a] <= values[i]
  {
    j := values.Length - 1;
    while values[j] <= values[i]
      invariant i < j < values.Length
      invariant forall a :: j < a < values.Length ==> values[a] <= values[i]
      decreases j
    {
      j := j - 1;
    }
  }

  /** Reverses values[first..] in place: the closing loop of next-permutation. */
  method ReverseFrom(values: array<int>, first: nat)
    requires first <= values.Length
    modifies values
    ensures values[..first] == old(values[..first])
    ensures forall k :: first <= k < values.Length ==>
                          values[k] == old(values[values.Length + first - 1 - k])
  {
    var count := values.Length;
    ghost var u := values[..];
    var left, right := first, count - 1;
    while left < right
      invariant first <= left <= count && right == count + first - 1 - left
      invariant left <= right + 2
      invariant forall k :: 0 <= k < first ==> values[k] == u[k]
      invariant forall k :: first <= k < left ==> values[k] == u[count + first - 1 - k]
      invariant forall k :: left <= k <= right ==> values[k] == u[k]
      invariant forall k :: right < k < count && first <= k ==> values[k] == u[count + first - 1 - k]
    {
      values[left], values[right] := values[right], values[left];
      left, right := left + 1, right - 1;
    }
    assert forall k :: first <= k < count ==> values[k] == u[count + first - 1 - k];
  }

  lemma ReversedTail(d: seq<int>, r: seq<int>)
    requires NonIncreasing(d)
    requires |r| == |d| && forall k :: 0 <= k < |r| ==> r[k] == d[|d| - 1 - k]
    ensures NonDecreasing(r) && SameElements(r, d)
  {
    ReverseKeepsElements(d, r);
  }

  lemma {:induction false} ReverseKeepsElements(d: seq<int>, r: seq<int>)
    requires |r| == |d| && forall k :: 0 <= k < |r| ==> r[k] == d[|d| - 1 - k]
    ensures SameElements(r, d)
  {
    if d != [] {
      var n := |d| - 1;
      ReverseKeepsElements(d[1..], r[..n]);
      assert d == [d[0]] + d[1..];
      assert r == r[..n] + [r[n]];
    }
  }

  lemma SuccessorMeansNotGreatest(s: seq<int>, t: seq<int>)
    requires IsSuccessor(s, t)
    ensures !Greatest(s)
  {
    LexIrreflexive(s, t);
    assert SameElements(t, s);
  }

  // ------------------------------------------------------------ the search

  /** Every probe so far was answered with no. */
  ghost predicate AllRejected(probe: (nat, PsxPins) -> bool, probed: seq<seq<int>>) {
    forall k :: 0 <= k < |probed| ==> |probed[k]| == 5 && !probe(k, ToPins(probed[k]))
  }

  /** Probed arrangements come in strictly increasing order, so none comes twice. */
  ghost predicate Increasing(probed: seq<seq<int>>) {
    forall i, j :: 0 <= i < j < |probed| ==> LexLess(probed[i], probed[j])
  }

  /** Exactly the arrangements below cur have been probed. */
  ghost predicate ExploredBelow(start: seq<int>, probed: seq<seq<int>>, cur: seq<int>) {
    forall c :: SameElements(c, start) ==> (c in probed <==> LexLess(c, cur))
  }

  lemma NothingBelowStart(start: seq<int>)
    requires NonDecreasing(start)
    ensures ExploredBelow(start, [], start)
  {
    forall c | SameElements(c, start)
      ensures !LexLess(c, start)
    {
      NonDecreasingIsLeast(start, c);
      if c != start {
        LexIrreflexive(start, c);
      } else if LexLess(c, start) {
        LexIrreflexive(c, start);
      }
    }
  }

  /** Moving to the successor extends what has been explored by exactly one arrangement. */
  lemma ExploredGrows(start: seq<int>, probed: seq<seq<int>>, cur: seq<int>, next: seq<int>)
    requires SameElements(cur, start) && IsSuccessor(cur, next)
    requires ExploredBelow(start, probed, cur)
    ensures ExploredBelow(start, probed + [cur], next)
  {
    forall c | SameElements(c, start)
      ensures c in probed + [cur] <==> LexLess(c, next)
    {
      SameElementsSameLength(c, cur);
      LexTotal(c, cur);
      if LexLess(c, cur) {
        LexTransitive(c, cur, next);
      } else if c != cur {
        assert c == next || LexLess(next, c);
        NotBelow(c, next);
      }
    }
  }

  lemma NotBelow(c: seq<int>, t: seq<int>)
    requires c == t || LexLess(t, c)
    ensures !LexLess(c, t)
  {
    if LexLess(t, c) {
      LexIrreflexive(t, c);
    } else {
      forall k: nat ensures !FirstDifference(c, t, k) {}
    }
  }

  /** The search so far: probed lists, in order and once each, every arrangement below cur. */
  ghost predicate Searched(start: seq<int>, probed: seq<seq<int>>, cur: seq<int>) {
    && SameElements(cur, start)
    && Increasing(probed)
    && ExploredBelow(start, probed, cur)
    && (forall k :: 0 <= k < |probed| ==> SameElements(probed[k], start))
  }

  lemma IncreasingExtends(start: seq<int>, probed: seq<seq<int>>, cur: seq<int>)
    requires Searched(start, probed, cur)
    ensures Increasing(probed + [cur])
    ensures cur !in probed
  {
    forall i | 0 <= i < |probed|
      ensures LexLess(probed[i], cur)
    {
      assert probed[i] in probed;
    }
    NotBelow(cur, cur);
  }

  lemma SearchStep(start: seq<int>, probed: seq<seq<int>>, cur: seq<int>, next: seq<int>)
    requires Searched(start, probed, cur) && IsSuccessor(cur, next)
    ensures Searched(start, probed + [cur], next)
  {
    IncreasingExtends(start, probed, cur);
    ExploredGrows(start, probed, cur, next);
  }

  lemma SearchDone(elems: set<int>, start: seq<int>, probed: seq<seq<int>>, cur: seq<int>)
    requires multiset(start) == multiset(elems)
    requires Searched(start, probed, cur) && Greatest(cur)
    ensures forall c :: SameElements(c, start) <==> c in probed + [cur]
    ensures |probed + [cur]| == Factorial(|elems|)
  {
    IncreasingExtends(start, probed, cur);
    ExploredAll(start, probed, cur);
    var all := probed + [cur];
    forall c
      ensures c in all <==> SameElements(c, start)
    {
      if c in all {
        var k :| 0 <= k < |all| && all[k] == c;
      }
    }
    CompleteListLength(elems, start, all);
  }

  /** At the greatest arrangement everything has been explored. */
  lemma ExploredAll(start: seq<int>, probed: seq<seq<int>>, cur: seq<int>)
    requires SameElements(cur, start) && Greatest(cur)
    requires ExploredBelow(start, probed, cur)
    ensures forall c :: SameElements(c, start) ==> c in probed + [cur]
  {
    forall c | SameElements(c, start)
      ensures c in probed + [cur]
    {
      assert SameElements(c, cur);
    }
  }

  /** A strictly increasing list of exactly the arrangements of n distinct values has
      n! entries. */
  lemma CompleteListLength(elems: set<int>, start: seq<int>, probed: seq<seq<int>>)
    requires multiset(start) == multiset(elems)
    requires Increasing(probed)
    requires forall c :: c in probed <==> SameElements(c, start)
    ensures |probed| == Factorial(|elems|)
  {
    forall i, j | 0 <= i < j < |probed|
      ensures probed[i] != probed[j]
    {
      LexIrreflexive(probed[i], probed[j]);
    }
    DistinctListSize(probed);
    var listed := set c | c in probed;
    forall c
      ensures c in listed <==> c in Arrangements(elems)
    {
      ArrangementsExact(elems, c);
    }
    assert listed == Arrangements(elems);
    ArrangementCount(elems);
  }

  lemma {:induction false} DistinctListSize(list: seq<seq<int>>)
    requires forall i, j :: 0 <= i < j < |list| ==> list[i] != list[j]
    ensures |set c | c in list| == |list|
  {
    if list != [] {
      var n := |list| - 1;
      DistinctListSize(list[..n]);
      assert list == list[..n] + [list[n]];
      assert (set c | c in list) == (set c | c in list[..n]) + {list[n]};
      assert list[n] !in list[..n];
    } else {
      assert (set c | c in list) == {};
    }
  }

  /** The last mapping probed is the first one accepted, and everything below it in
      lexicographic order was probed, once, and rejected. */
  ghost predicate FoundLast(probe: (nat, PsxPins) -> bool, probed: seq<seq<int>>) {
    var n := |probed| - 1;
    && n >= 0 && Increasing(probed)
    && |probed[n]| == 5 && probe(n, ToPins(probed[n]))
    && AllRejected(probe, probed[..n])
    && (forall c :: SameElements(c, SWEEP_START) ==> (c in probed[..n] <==> LexLess(c, probed[n])))
  }

  /** All 120 arrangements, each exactly once, in increasing order. */
  ghost predicate ListsEverything(probed: seq<seq<int>>) {
    && Increasing(probed)
    && |probed| == 120
    && (forall c :: SameElements(c, SWEEP_START) <==> c in probed)
  }

  /** The sweep. probe(k, m) stands for the controller's answer when mapping m is tried
      as the k-th attempt; it may depend on both in any way. */
  method PsxPinSweep(pins: Pins, probe: (nat, PsxPins) -> bool, nvsOpens: bool)
    returns (found: bool, ghost probed: seq<seq<int>>)
    modifies pins
    ensures |probed| > 0 && forall k :: 0 <= k < |probed| ==> |probed[k]| == 5
    ensures found ==> FoundLast(probe, probed) && pins.active == ToPins(probed[|probed| - 1])
    ensures found && nvsOpens ==> pins.Saved() == Some(pins.active)
    ensures !found ==> AllRejected(probe, probed) && ListsEverything(probed)
    ensures !found ==> pins.active == DEFAULT_PINS
    ensures !found || !nvsOpens ==> pins.valid == old(pins.valid) && pins.stored == old(pins.stored)
  {
    hide ListsEverything, Greatest, IsSuccessor;
    var permutation := new int[5] [4, 5, 6, 7, 8];
    var attempts := 0;
    probed := [];
    SearchBegins(permutation[..]);
    while true
      invariant attempts == |probed|
      invariant Searched(SWEEP_START, probed, permutation[..])
      invariant AllRejected(probe, probed)
      invariant pins.valid == old(pins.valid) && pins.stored == old(pins.stored)
      decreases 120 - |probed|
    {
      ghost var cur, before := permutation[..], probed;
      RoomForOneMore(before, cur);
      var candidate := PsxPins(permutation[0], permutation[1], permutation[2], permutation[3], permutation[4]);
      probed := before + [cur];
      attempts := attempts + 1;
      pins.Set(candidate, false, nvsOpens);
      if probe(attempts - 1, candidate) {
        SearchHit(probe, before, cur);
        pins.Set(candidate, true, nvsOpens);
        return true, probed;
      }
      var advanced := NextPermutation(permutation);
      if !advanced {
        SearchMiss(before, cur);
        break;
      }
      SearchStep(SWEEP_START, before, cur, permutation[..]);
    }
    pins.Set(DEFAULT_PINS, false, nvsOpens);
    return false, probed;
  }

  lemma SearchBegins(start: seq<int>)
    requires start == [4, 5, 6, 7, 8]
    ensures Searched(SWEEP_START, [], start)
  {
    NothingBelowStart(SWEEP_START);
  }

  lemma SearchHit(probe: (nat, PsxPins) -> bool, before: seq<seq<int>>, cur: seq<int>)
    requires Searched(SWEEP_START, before, cur) && AllRejected(probe, before)
    requires |cur| == 5 && probe(|before|, ToPins(cur))
    ensures FoundLast(probe, before + [cur])
  {
    IncreasingExtends(SWEEP_START, before, cur);
    assert (before + [cur])[..|before|] == before;
  }

  lemma SearchMiss(before: seq<seq<int>>, cur: seq<int>)
    requires Searched(SWEEP_START, before, cur) && Greatest(cur)
    ensures ListsEverything(before + [cur])
  {
    IncreasingExtends(SWEEP_START, before, cur);
    SweepElements();
    SearchDone(SWEEP_SET, SWEEP_START, before, cur);
    FactorialOfFive();
  }

  /** Distinct arrangements of five pins cannot outnumber 120: the search terminates. */
  lemma RoomForOneMore(before: seq<seq<int>>, cur: seq<int>)
    requires Searched(SWEEP_START, before, cur)
    ensures |before| < 120
  {
    var all := before + [cur];
    IncreasingExtends(SWEEP_START, before, cur);
    forall i, j | 0 <= i < j < |all|
      ensures all[i] != all[j]
    {
      LexIrreflexive(all[i], all[j]);
    }
    DistinctListSize(all);
    SweepElements();
    forall k | 0 <= k < |all|
      ensures all[k] in Arrangements(SWEEP_SET)
    {
      ArrangementsExact(SWEEP_SET, all[k]);
    }
    ArrangementCount(SWEEP_SET);
    FactorialOfFive();
    SubsetIsSmaller((set c | c in all), Arrangements(SWEEP_SET));
  }

  lemma {:induction false} SubsetIsSmaller<T>(a: set<T>, b: set<T>)
    requires a <= b
    ensures |a| <= |b|
  {
    assert |b| == |a| + |b - a| by {
      assert b == a + (b - a);
    }
  }

  lemma SweepElements()
    ensures multiset(SWEEP_START) == multiset(SWEEP_SET)
  {
  }

  lemma FactorialOfFive()
    ensures Factorial(|SWEEP_SET|) == 120
  {
    assert |SWEEP_SET| == 5;
    assert Factorial(5) == 5 * Factorial(4) == 5 * 4 * Factorial(3) == 20 * 3 * Factorial(2);
  }

  /** After a successful sweep whose mapping could be saved, a reboot starts with it. */
  method SweepThenReboot(pins: Pins, probe: (nat, PsxPins) -> bool) returns (found: bool)
    modifies pins
    ensures found ==> exists k: nat :: probe(k, pins.active)
    ensures !found ==> pins.active == if old(pins.valid) then old(pins.Saved()).value else DEFAULT_PINS
  {
    ghost var probed;
    found, probed := PsxPinSweep(pins, probe, true);
    pins.Begin(true);
    if found {
      assert probe(|probed| - 1, pins.active);
    }
  }
}
