/** The cycle-data merge (`get_cycle_data` in sync.py): combines the rows
    currently in the retail location (QOH) with the rows staged to cycle out,
    applies the serialized/bulk tie-break rules and the manual overrides, drops
    the flagged parts and de-duplicates by part number.

    `Scan` follows the source's loop step by step (with its growing
    `existing` set and `processed` set); `Additions` and `Removals` say
    declaratively what that loop contributes, and `ScanMatchesReference`
    proves the two agree. */
module CycleMerge {
  import opened Common
  import opened Records
  import opened ErrorLogs

  type Overrides = map<string, CycleRecord>

  // ---------------------------------------------------------------------
  // Sequence helpers
  // ---------------------------------------------------------------------

  lemma PartSetSnoc(s: seq<CycleRecord>, x: CycleRecord)
    ensures PartSet(s + [x]) == PartSet(s) + (if x.partNumber == "" then {} else {x.partNumber})
  {
    var t := s + [x];
    forall p | p in PartSet(t) ensures p in PartSet(s) + (if x.partNumber == "" then {} else {x.partNumber}) {
      var i :| 0 <= i < |t| && t[i].partNumber == p;
      if i < |s| { assert s[i] == t[i]; }
    }
    forall p | p in PartSet(s) ensures p in PartSet(t) {
      var i :| 0 <= i < |s| && s[i].partNumber == p;
      assert t[i] == s[i];
    }
    if x.partNumber != "" { assert t[|s|] == x; }
  }

  lemma AppendAssoc<T>(a: seq<T>, b: seq<T>, c: seq<T>)
    ensures (a + b) + c == a + (b + c)
  {
  }

  lemma PartSetAppend(a: seq<CycleRecord>, b: seq<CycleRecord>)
    ensures PartSet(a + b) == PartSet(a) + PartSet(b)
  {
    var t := a + b;
    forall p | p in PartSet(t) ensures p in PartSet(a) + PartSet(b) {
      var i :| 0 <= i < |t| && t[i].partNumber == p;
      if i < |a| { assert a[i] == t[i]; } else { assert b[i - |a|] == t[i]; }
    }
    forall p | p in PartSet(a) ensures p in PartSet(t) {
      var i :| 0 <= i < |a| && a[i].partNumber == p;
      assert t[i] == a[i];
    }
    forall p | p in PartSet(b) ensures p in PartSet(t) {
      var i :| 0 <= i < |b| && b[i].partNumber == p;
      assert t[|a| + i] == b[i];
    }
  }

  /** The last row carrying part number `p`, if any. */
  function LastOf(s: seq<CycleRecord>, p: string): (r: Option<CycleRecord>)
    ensures r.Some? ==> r.value.partNumber == p
  {
    if s == [] then None
    else if s[|s| - 1].partNumber == p then Some(s[|s| - 1])
    else LastOf(s[..|s| - 1], p)
  }

  /** `LastOf` finds a row exactly when one exists, and no later row of `s`
      carries the same part number. */
  lemma LastOfIsLast(s: seq<CycleRecord>, p: string)
    ensures LastOf(s, p).None? <==> forall i :: 0 <= i < |s| ==> s[i].partNumber != p
    ensures LastOf(s, p).Some? ==> exists i :: && 0 <= i < |s| && s[i] == LastOf(s, p).value
                                              && forall k :: i < k < |s| ==> s[k].partNumber != p
  {
    LastOfNone(s, p);
    if LastOf(s, p).Some? {
      LastOfWitness(s, p);
    }
  }

  lemma {:induction false} LastOfNone(s: seq<CycleRecord>, p: string)
    ensures LastOf(s, p).None? <==> forall i :: 0 <= i < |s| ==> s[i].partNumber != p
    decreases |s|
  {
    if s != [] && s[|s| - 1].partNumber != p {
      var init := s[..|s| - 1];
      LastOfNone(init, p);
      assert forall i :: 0 <= i < |init| ==> s[i] == init[i];
    }
  }

  lemma {:induction false} LastOfWitness(s: seq<CycleRecord>, p: string)
    requires LastOf(s, p).Some?
    ensures exists i :: && 0 <= i < |s| && s[i] == LastOf(s, p).value
                        && forall k :: i < k < |s| ==> s[k].partNumber != p
    decreases |s|
  {
    var n := |s| - 1;
    if s[n].partNumber == p {
      assert s[n] == LastOf(s, p).value;
    } else {
      var init := s[..n];
      LastOfWitness(init, p);
      var i :| && 0 <= i < |init| && init[i] == LastOf(init, p).value
               && forall k :: i < k < |init| ==> init[k].partNumber != p;
      assert s[i] == init[i];
      assert forall k :: i < k < |s| ==> s[k].partNumber != p by {
        forall k | i < k < |s| ensures s[k].partNumber != p {
          if k < n { assert s[k] == init[k]; }
        }
      }
    }
  }

  lemma {:induction false} LastOfAppend(a: seq<CycleRecord>, b: seq<CycleRecord>, p: string)
    ensures LastOf(a + b, p) == if LastOf(b, p).Some? then LastOf(b, p) else LastOf(a, p)
    decreases |b|
  {
    if b != [] {
      assert (a + b)[..|a + b| - 1] == a + b[..|b| - 1];
      LastOfAppend(a, b[..|b| - 1], p);
    } else {
      assert a + b == a;
    }
  }

  /** Drops every row whose part number is in `gone` (the list
      comprehension over `to_remove`). */
  function FilterOut(s: seq<CycleRecord>, gone: set<string>): (r: seq<CycleRecord>)
    ensures forall i :: 0 <= i < |r| ==> r[i] in s && r[i].partNumber !in gone
    ensures forall i :: 0 <= i < |s| && s[i].partNumber !in gone ==> s[i] in r
  {
    if s == [] then []
    else
      var init := FilterOut(s[..|s| - 1], gone);
      var x := s[|s| - 1];
      if x.partNumber in gone then init else init + [x]
  }

  /** The filter keeps exactly the part numbers not in `gone`. */
  lemma {:induction false} FilterOutParts(s: seq<CycleRecord>, gone: set<string>)
    ensures PartSet(FilterOut(s, gone)) == PartSet(s) - gone
    decreases |s|
  {
    if s != [] {
      var init := s[..|s| - 1];
      var x := s[|s| - 1];
      FilterOutParts(init, gone);
      PartSetSnoc(init, x);
      assert s == init + [x];
      if x.partNumber !in gone {
        PartSetSnoc(FilterOut(init, gone), x);
      }
    }
  }

  lemma {:induction false} LastOfFilterOut(s: seq<CycleRecord>, gone: set<string>, p: string)
    requires p !in gone
    ensures LastOf(FilterOut(s, gone), p) == LastOf(s, p)
    decreases |s|
  {
    if s != [] {
      LastOfFilterOut(s[..|s| - 1], gone, p);
      var x := s[|s| - 1];
      if x.partNumber !in gone {
        var f := FilterOut(s[..|s| - 1], gone);
        assert (f + [x])[..|f + [x]| - 1] == f;
      }
    }
  }

  // ---------------------------------------------------------------------
  // De-duplication by part number (the final dict comprehension)
  // ---------------------------------------------------------------------

  /** Index of the first row carrying part number `p` (`|s|` when none). */
  function FirstPos(s: seq<CycleRecord>, p: string): (k: nat)
    ensures k <= |s|
    ensures k < |s| ==> s[k].partNumber == p
    ensures forall i :: 0 <= i < k ==> s[i].partNumber != p
  {
    if s == [] then 0
    else
      var f := FirstPos(s[..|s| - 1], p);
      if f < |s| - 1 then f
      else if s[|s| - 1].partNumber == p then |s| - 1
      else |s|
  }

  /** The dict `{item['PartNumber']: item ...}` built left to right: keys in
      first-insertion order, each key holding the last row assigned to it. */
  datatype PartDict = PartDict(keys: seq<string>, values: map<string, CycleRecord>)

  function DictFold(s: seq<CycleRecord>): (d: PartDict)
    ensures forall i, j :: 0 <= i < j < |d.keys| ==> d.keys[i] != d.keys[j]
    ensures forall i :: 0 <= i < |d.keys| ==> d.keys[i] in d.values
    ensures forall p :: p in d.values ==> p in d.keys
    ensures forall p :: p in d.values ==> d.values[p].partNumber == p
    ensures "" !in d.values
  {
    if s == [] then PartDict([], map[])
    else
      var init := s[..|s| - 1];
      var x := s[|s| - 1];
      var d := DictFold(init);
      var p := x.partNumber;
      if p == "" then d
      else if p in d.values then PartDict(d.keys, d.values[p := x])
      else
        PartDict(d.keys + [p], d.values[p := x])
  }

  /** The dict's keys are exactly the non-empty part numbers of `s`. */
  lemma {:induction false} DictFoldParts(s: seq<CycleRecord>)
    ensures DictFold(s).values.Keys == PartSet(s)
    decreases |s|
  {
    if s != [] {
      var init := s[..|s| - 1];
      var x := s[|s| - 1];
      DictFoldParts(init);
      assert s == init + [x];
      PartSetSnoc(init, x);
    }
  }

  /** Each key of the dict holds the last row with that part number. */
  lemma {:induction false} DictFoldLast(s: seq<CycleRecord>)
    ensures var d := DictFold(s);
            forall p :: p in d.values ==> LastOf(s, p) == Some(d.values[p])
    decreases |s|
  {
    if s != [] {
      var init := s[..|s| - 1];
      var x := s[|s| - 1];
      DictFoldLast(init);
      var d0 := DictFold(init);
      var d := DictFold(s);
      forall p | p in d.values ensures LastOf(s, p) == Some(d.values[p]) {
        if p == x.partNumber {
          assert d.values[p] == x;
        } else {
          assert LastOf(s, p) == LastOf(init, p);
          assert d.values[p] == d0.values[p];
        }
      }
    }
  }

  /** A part that occurs in `s` has its first position inside `s`. */
  lemma FirstPosInside(s: seq<CycleRecord>, p: string)
    requires p in PartSet(s)
    ensures FirstPos(s, p) < |s|
  {
    var k :| 0 <= k < |s| && s[k].partNumber == p;
  }

  /** Appending a row leaves the first position of every part already
      present unchanged, and puts a new part at the end. */
  lemma FirstPosSnoc(init: seq<CycleRecord>, x: CycleRecord, q: string)
    ensures q in PartSet(init) ==> FirstPos(init + [x], q) == FirstPos(init, q) < |init|
    ensures q !in PartSet(init) && q == x.partNumber != "" ==> FirstPos(init + [x], q) == |init|
  {
    var s := init + [x];
    assert s[..|s| - 1] == init;
    if q in PartSet(init) {
      FirstPosInside(init, q);
    } else if q == x.partNumber && q != "" {
      assert FirstPos(init, q) == |init|;
    }
  }

  /** The keys appear in order of their parts' first positions in `s`. */
  predicate OrderedByFirst(s: seq<CycleRecord>, keys: seq<string>) {
    forall i, j :: 0 <= i < j < |keys| ==> FirstPos(s, keys[i]) < FirstPos(s, keys[j])
  }

  lemma OrderSnoc(init: seq<CycleRecord>, x: CycleRecord, keys0: seq<string>, keys: seq<string>)
    requires OrderedByFirst(init, keys0)
    requires forall k :: 0 <= k < |keys0| ==> keys0[k] in PartSet(init)
    requires keys == keys0 || (keys == keys0 + [x.partNumber] && x.partNumber != "" && x.partNumber !in PartSet(init))
    ensures OrderedByFirst(init + [x], keys)
  {
    var s := init + [x];
    forall i, j | 0 <= i < j < |keys|
      ensures FirstPos(s, keys[i]) < FirstPos(s, keys[j])
    {
      FirstPosSnoc(init, x, keys[i]);
      FirstPosSnoc(init, x, keys[j]);
      if j < |keys0| {
        assert keys[i] == keys0[i] && keys[j] == keys0[j];
      }
    }
  }

  /** Keys are listed in order of each part's first appearance. */
  lemma {:induction false} DictFoldOrder(s: seq<CycleRecord>)
    ensures OrderedByFirst(s, DictFold(s).keys)
    decreases |s|
  {
    if s != [] {
      var init := s[..|s| - 1];
      var x := s[|s| - 1];
      DictFoldOrder(init);
      var d0 := DictFold(init);
      DictFoldParts(init);
      assert s == init + [x];
      OrderSnoc(init, x, d0.keys, DictFold(s).keys);
    }
  }

  /** The dict's values, listed in key order. */
  function DictValues(d: PartDict): (r: seq<CycleRecord>)
    requires forall i :: 0 <= i < |d.keys| ==> d.keys[i] in d.values
    ensures |r| == |d.keys|
    ensures forall i :: 0 <= i < |r| ==> r[i] == d.values[d.keys[i]]
  {
    seq(|d.keys|, i requires 0 <= i < |d.keys| => d.values[d.keys[i]])
  }

  lemma DedupParts(s: seq<CycleRecord>)
    ensures var d := DictFold(s);
            forall i :: 0 <= i < |d.keys| ==> d.keys[i] != "" && LastOf(s, d.keys[i]) == Some(DictValues(d)[i])
  {
    DictFoldLast(s);
  }

  lemma DedupPartSet(s: seq<CycleRecord>)
    ensures PartSet(DictValues(DictFold(s))) == PartSet(s)
  {
    DictFoldParts(s);
    DictKeysCovered(DictFold(s));
    DictValuesCovered(DictFold(s));
  }

  /** Every key of a well-formed dict is a part of its value list. */
  lemma DictKeysCovered(d: PartDict)
    requires forall i :: 0 <= i < |d.keys| ==> d.keys[i] in d.values
    requires forall p :: p in d.values ==> p in d.keys
    requires forall p :: p in d.values ==> d.values[p].partNumber == p
    requires "" !in d.values
    ensures PartSet(DictValues(d)) == d.values.Keys
  {
    var r := DictValues(d);
    forall p | p in d.values ensures p in PartSet(r) {
      var i :| 0 <= i < |d.keys| && d.keys[i] == p;
      assert r[i].partNumber == p;
    }
    DictValuesCovered(d);
  }

  /** Every part of a well-formed dict's value list is one of its keys. */
  lemma DictValuesCovered(d: PartDict)
    requires forall i :: 0 <= i < |d.keys| ==> d.keys[i] in d.values
    requires forall p :: p in d.values ==> d.values[p].partNumber == p
    ensures PartSet(DictValues(d)) <= d.values.Keys
  {
    var r := DictValues(d);
    forall p | p in PartSet(r) ensures p in d.values {
      var i :| 0 <= i < |r| && r[i].partNumber == p;
      assert d.keys[i] == p;
    }
  }

  lemma DedupKeys(s: seq<CycleRecord>)
    ensures var r := DictValues(DictFold(s));
            seq(|r|, i requires 0 <= i < |r| => r[i].partNumber) == DictFold(s).keys
  {
    DedupParts(s);
  }

  /** `list(unique_inv.values())`: one row per distinct non-empty part
      number, the LAST row with that part number, in order of first
      appearance. */
  function DedupByPart(s: seq<CycleRecord>): (r: seq<CycleRecord>)
    ensures forall i, j :: 0 <= i < j < |r| ==> r[i].partNumber != r[j].partNumber
    ensures forall i :: 0 <= i < |r| ==> r[i].partNumber != "" && LastOf(s, r[i].partNumber) == Some(r[i])
    ensures PartSet(r) == PartSet(s)
    ensures forall i, j :: 0 <= i < j < |r| ==> FirstPos(s, r[i].partNumber) < FirstPos(s, r[j].partNumber)
  {
    DedupParts(s);
    DedupPartSet(s);
    DictFoldOrder(s);
    DedupKeys(s);
    DictValues(DictFold(s))
  }

  // ---------------------------------------------------------------------
  // The source's loop, step by step
  // ---------------------------------------------------------------------

  /** The loop's variables: the QOH list being extended, `cycle_in_products`,
      `to_remove` and `processed`. */
  datatype ScanState = ScanState(
    inventory: seq<CycleRecord>,
    existing: set<string>,
    toRemove: set<string>,
    processed: set<string>)

  /** One iteration over a cycle-out row. */
  function ScanStep(st: ScanState, item: CycleRecord, overrides: Overrides): ScanState {
    var p := item.partNumber;
    if p == "" || p in st.processed then st
    else if p in overrides then
      st.(processed := st.processed + {p}, inventory := st.inventory + [overrides[p]])
    else
      var st1 := st.(processed := st.processed + {p});
      if p in st.existing && item.snFlag == Serialized then
        st1.(toRemove := st1.toRemove + {p})
      else if p !in st.existing && item.snFlag == NonSerialized then
        st1.(inventory := st1.inventory + [item], existing := st1.existing + {p})
      else st1
  }

  /** The loop after the first `|cycleOut|` rows. */
  function Scan(qoh: seq<CycleRecord>, cycleOut: seq<CycleRecord>, overrides: Overrides): ScanState
    decreases |cycleOut|
  {
    if cycleOut == [] then ScanState(qoh, PartSet(qoh), {}, {})
    else ScanStep(Scan(qoh, cycleOut[..|cycleOut| - 1], overrides), cycleOut[|cycleOut| - 1], overrides)
  }

  // ---------------------------------------------------------------------
  // What the loop does, stated declaratively
  // ---------------------------------------------------------------------

  /** Row `j` is the first cycle-out row with its (non-empty) part number. */
  predicate FirstOccurrence(cs: seq<CycleRecord>, j: int)
    requires 0 <= j < |cs|
  {
    cs[j].partNumber != "" && cs[j].partNumber !in PartSet(cs[..j])
  }

  /** What the first row of a part appends to the QOH list: its override if
      the part number is an override key, else the row itself when it is a
      bulk part not yet on hand, else nothing. Later rows append nothing. */
  function Contribution(qohParts: set<string>, cs: seq<CycleRecord>, overrides: Overrides, j: int): (r: seq<CycleRecord>)
    requires 0 <= j < |cs|
    ensures |r| <= 1
  {
    var p := cs[j].partNumber;
    if !FirstOccurrence(cs, j) then []
    else if p in overrides then [overrides[p]]
    else if p !in qohParts && cs[j].snFlag == NonSerialized then [cs[j]]
    else []
  }

  /** All contributions, in cycle-out order. */
  function Additions(qohParts: set<string>, cs: seq<CycleRecord>, overrides: Overrides): seq<CycleRecord>
    decreases |cs|
  {
    if cs == [] then []
    else Additions(qohParts, cs[..|cs| - 1], overrides) + Contribution(qohParts, cs, overrides, |cs| - 1)
  }

  /** Row `j` flags its part for removal: the first row of a serialized part
      already on hand that is not an override key. */
  predicate RemovalAt(qohParts: set<string>, cs: seq<CycleRecord>, overrides: Overrides, j: int)
    requires 0 <= j < |cs|
  {
    FirstOccurrence(cs, j) && cs[j].partNumber !in overrides && cs[j].partNumber in qohParts
      && cs[j].snFlag == Serialized
  }

  function Removals(qohParts: set<string>, cs: seq<CycleRecord>, overrides: Overrides): set<string> {
    set j | 0 <= j < |cs| && RemovalAt(qohParts, cs, overrides, j) :: cs[j].partNumber
  }

  /** The merge result: QOH plus the contributions, minus the removed parts,
      de-duplicated by part number. */
  function Merged(qoh: seq<CycleRecord>, cs: seq<CycleRecord>, overrides: Overrides): seq<CycleRecord> {
    var qohParts := PartSet(qoh);
    DedupByPart(FilterOut(qoh + Additions(qohParts, cs, overrides), Removals(qohParts, cs, overrides)))
  }

  lemma PrefixFacts(cs: seq<CycleRecord>, n: int, j: int)
    requires 0 <= j < n <= |cs|
    ensures cs[..n][..j] == cs[..j] && cs[..n][j] == cs[j]
  {
  }

  lemma ContributionPrefix(qohParts: set<string>, cs: seq<CycleRecord>, overrides: Overrides, n: int, j: int)
    requires 0 <= j < n <= |cs|
    ensures Contribution(qohParts, cs[..n], overrides, j) == Contribution(qohParts, cs, overrides, j)
    ensures RemovalAt(qohParts, cs[..n], overrides, j) == RemovalAt(qohParts, cs, overrides, j)
  {
    PrefixFacts(cs, n, j);
  }

  lemma RemovalsSnoc(qohParts: set<string>, cs: seq<CycleRecord>, overrides: Overrides)
    requires cs != []
    ensures Removals(qohParts, cs, overrides) ==
      Removals(qohParts, cs[..|cs| - 1], overrides)
      + (if RemovalAt(qohParts, cs, overrides, |cs| - 1) then {cs[|cs| - 1].partNumber} else {})
  {
    var n := |cs| - 1;
    var init := cs[..n];
    forall j | 0 <= j < n ensures RemovalAt(qohParts, init, overrides, j) == RemovalAt(qohParts, cs, overrides, j) {
      ContributionPrefix(qohParts, cs, overrides, n, j);
    }
  }

  /** One loop iteration, in terms of the declarative contribution and
      removal of the row it visits. */
  lemma StepMatches(qohParts: set<string>, init: seq<CycleRecord>, x: CycleRecord, overrides: Overrides, st: ScanState)
    requires st.processed == PartSet(init)
    requires qohParts <= st.existing <= qohParts + PartSet(init)
    ensures var cs := init + [x];
            var st' := ScanStep(st, x, overrides);
            && st'.inventory == st.inventory + Contribution(qohParts, cs, overrides, |init|)
            && st'.processed == PartSet(cs)
            && qohParts <= st'.existing <= qohParts + PartSet(cs)
            && st'.toRemove == st.toRemove
                 + (if RemovalAt(qohParts, cs, overrides, |init|) then {x.partNumber} else {})
  {
    var cs := init + [x];
    assert cs[..|init|] == init;
    assert cs[|init|] == x;
    PartSetSnoc(init, x);
  }

  /** The loop's `processed` set is the set of parts visited, and `existing`
      only ever differs from the QOH parts on parts already processed. */
  lemma {:induction false} ScanSets(qoh: seq<CycleRecord>, cs: seq<CycleRecord>, overrides: Overrides)
    ensures var st := Scan(qoh, cs, overrides);
            && st.processed == PartSet(cs)
            && PartSet(qoh) <= st.existing <= PartSet(qoh) + PartSet(cs)
    decreases |cs|
  {
    if cs == [] {
      assert PartSet(cs) == {};
    } else {
      var n := |cs| - 1;
      var init := cs[..n];
      var x := cs[n];
      ScanSets(qoh, init, overrides);
      assert cs == init + [x];
      StepMatches(PartSet(qoh), init, x, overrides, Scan(qoh, init, overrides));
    }
  }

  /** The list the loop builds is QOH followed by the contributions. */
  lemma {:induction false} ScanInventory(qoh: seq<CycleRecord>, cs: seq<CycleRecord>, overrides: Overrides)
    ensures Scan(qoh, cs, overrides).inventory == qoh + Additions(PartSet(qoh), cs, overrides)
    decreases |cs|
  {
    if cs != [] {
      var n := |cs| - 1;
      var init := cs[..n];
      var x := cs[n];
      ScanInventory(qoh, init, overrides);
      ScanSets(qoh, init, overrides);
      assert cs == init + [x];
      StepMatches(PartSet(qoh), init, x, overrides, Scan(qoh, init, overrides));
      AppendAssoc(qoh, Additions(PartSet(qoh), init, overrides), Contribution(PartSet(qoh), cs, overrides, n));
    }
  }

  /** The set the loop flags for removal is the declarative removal set. */
  lemma {:induction false} ScanRemovals(qoh: seq<CycleRecord>, cs: seq<CycleRecord>, overrides: Overrides)
    ensures Scan(qoh, cs, overrides).toRemove == Removals(PartSet(qoh), cs, overrides)
    decreases |cs|
  {
    if cs == [] {
      assert Removals(PartSet(qoh), cs, overrides) == {};
    } else {
      var n := |cs| - 1;
      var init := cs[..n];
      var x := cs[n];
      ScanRemovals(qoh, init, overrides);
      ScanSets(qoh, init, overrides);
      assert cs == init + [x];
      StepMatches(PartSet(qoh), init, x, overrides, Scan(qoh, init, overrides));
      RemovalsSnoc(PartSet(qoh), cs, overrides);
    }
  }

  /** The step-by-step loop computes exactly the declarative contributions
      and removals. */
  lemma ScanMatchesReference(qoh: seq<CycleRecord>, cs: seq<CycleRecord>, overrides: Overrides)
    ensures var st := Scan(qoh, cs, overrides);
            && st.inventory == qoh + Additions(PartSet(qoh), cs, overrides)
            && st.processed == PartSet(cs)
            && PartSet(qoh) <= st.existing <= PartSet(qoh) + PartSet(cs)
            && st.toRemove == Removals(PartSet(qoh), cs, overrides)
  {
    ScanSets(qoh, cs, overrides);
    ScanInventory(qoh, cs, overrides);
    ScanRemovals(qoh, cs, overrides);
  }

  // ---------------------------------------------------------------------
  // The merge rules
  // ---------------------------------------------------------------------

  /** A part number has at most one first occurrence. */
  lemma FirstOccurrenceUnique(cs: seq<CycleRecord>, j: int, k: int)
    requires 0 <= j < |cs| && 0 <= k < |cs|
    requires FirstOccurrence(cs, j) && FirstOccurrence(cs, k)
    requires cs[j].partNumber == cs[k].partNumber
    ensures j == k
  {
    EarlierInPrefix(cs, j, k);
    EarlierInPrefix(cs, k, j);
  }

  lemma EarlierInPrefix(cs: seq<CycleRecord>, j: int, k: int)
    requires 0 <= j < |cs| && 0 <= k <= |cs|
    ensures j < k && cs[j].partNumber != "" ==> cs[j].partNumber in PartSet(cs[..k])
  {
    if j < k {
      assert cs[..k][j] == cs[j];
    }
  }

  /** Every contribution ends up in the additions. */
  lemma {:induction false} AdditionsHas(qohParts: set<string>, cs: seq<CycleRecord>, overrides: Overrides, j: int)
    requires 0 <= j < |cs|
    ensures forall a :: a in Contribution(qohParts, cs, overrides, j) ==> a in Additions(qohParts, cs, overrides)
    decreases |cs|
  {
    var n := |cs| - 1;
    if j < n {
      AdditionsHas(qohParts, cs[..n], overrides, j);
      ContributionPrefix(qohParts, cs, overrides, n, j);
    }
  }

  /** Every added row is the whole contribution of one cycle-out row. */
  lemma {:induction false} AdditionsFrom(qohParts: set<string>, cs: seq<CycleRecord>, overrides: Overrides)
    ensures forall a :: a in Additions(qohParts, cs, overrides) ==>
              exists j :: 0 <= j < |cs| && Contribution(qohParts, cs, overrides, j) == [a]
    decreases |cs|
  {
    if cs != [] {
      var n := |cs| - 1;
      var init := cs[..n];
      AdditionsFrom(qohParts, init, overrides);
      forall a | a in Additions(qohParts, cs, overrides)
        ensures exists j :: 0 <= j < |cs| && Contribution(qohParts, cs, overrides, j) == [a]
      {
        if a in Additions(qohParts, init, overrides) {
          var j :| 0 <= j < n && Contribution(qohParts, init, overrides, j) == [a];
          ContributionPrefix(qohParts, cs, overrides, n, j);
        } else {
          assert Contribution(qohParts, cs, overrides, n) == [a];
        }
      }
    }
  }

  /** Rows are only ever added from the cycle-out list or from the override
      of a cycle-out part number: an override whose key no cycle-out row
      carries is never inserted. */
  lemma AdditionsOrigin(qohParts: set<string>, cs: seq<CycleRecord>, overrides: Overrides)
    ensures forall a :: a in Additions(qohParts, cs, overrides) ==>
              exists j :: && 0 <= j < |cs|
                          && (|| a == cs[j]
                              || (cs[j].partNumber in overrides && a == overrides[cs[j].partNumber]))
  {
    AdditionsFrom(qohParts, cs, overrides);
  }

  /** A row that is the only one with its part number is the last one. */
  lemma LastOfUnique(s: seq<CycleRecord>, p: string, x: CycleRecord)
    requires x in s && x.partNumber == p
    requires forall i :: 0 <= i < |s| && s[i].partNumber == p ==> s[i] == x
    ensures LastOf(s, p) == Some(x)
  {
    LastOfIsLast(s, p);
    if LastOf(s, p).Some? {
      var i :| 0 <= i < |s| && s[i] == LastOf(s, p).value;
    }
  }

  /** Rows of a removed part never survive the filter. */
  lemma {:induction false} LastOfFilterOutGone(s: seq<CycleRecord>, gone: set<string>, p: string)
    requires p in gone
    ensures LastOf(FilterOut(s, gone), p) == None
  {
    var r := FilterOut(s, gone);
    LastOfIsLast(r, p);
  }

  /** Looking a part up in the de-duplicated list gives the last row with
      that part number. */
  lemma DedupLookup(s: seq<CycleRecord>, p: string)
    requires p != ""
    ensures LastOf(DedupByPart(s), p) == LastOf(s, p)
  {
    var r := DedupByPart(s);
    if p in PartSet(r) {
      var i :| 0 <= i < |r| && r[i].partNumber == p;
      DistinctLookup(r, i);
    } else {
      DedupLookupAbsent(s, r, p);
    }
  }

  /** In a list with distinct part numbers, looking up a row's part finds
      that row. */
  lemma DistinctLookup(r: seq<CycleRecord>, i: int)
    requires 0 <= i < |r|
    requires forall a, b :: 0 <= a < b < |r| ==> r[a].partNumber != r[b].partNumber
    ensures LastOf(r, r[i].partNumber) == Some(r[i])
  {
    var p := r[i].partNumber;
    assert forall j :: 0 <= j < |r| && j != i ==> r[j].partNumber != p;
    LastOfUnique(r, p, r[i]);
  }

  /** A part missing from both lists is found in neither. */
  lemma DedupLookupAbsent(s: seq<CycleRecord>, r: seq<CycleRecord>, p: string)
    requires p != "" && p !in PartSet(r) && PartSet(r) == PartSet(s)
    ensures LastOf(r, p) == None && LastOf(s, p) == None
  {
    LastOfIsLast(s, p);
    LastOfIsLast(r, p);
    forall i | 0 <= i < |s| ensures s[i].partNumber != p {
      assert s[i].partNumber == "" || s[i].partNumber in PartSet(s);
    }
    forall i | 0 <= i < |r| ensures r[i].partNumber != p {
      assert r[i].partNumber == "" || r[i].partNumber in PartSet(r);
    }
  }

  /** What the merge holds for a part: nothing if the part was flagged for
      removal, else the last row with that part number among the QOH rows
      followed by the additions. */
  lemma MergedLookup(qoh: seq<CycleRecord>, cs: seq<CycleRecord>, overrides: Overrides, p: string)
    requires p != ""
    ensures var qohParts := PartSet(qoh);
            LastOf(Merged(qoh, cs, overrides), p)
              == if p in Removals(qohParts, cs, overrides) then None
                 else LastOf(qoh + Additions(qohParts, cs, overrides), p)
  {
    var qohParts := PartSet(qoh);
    var all := qoh + Additions(qohParts, cs, overrides);
    var gone := Removals(qohParts, cs, overrides);
    DedupLookup(FilterOut(all, gone), p);
    if p in gone {
      LastOfFilterOutGone(all, gone, p);
    } else {
      LastOfFilterOut(all, gone, p);
    }
  }

  /** A part is flagged for removal only at its first cycle-out row. */
  lemma RemovalsAtFirst(qohParts: set<string>, cs: seq<CycleRecord>, overrides: Overrides, j: int)
    requires 0 <= j < |cs| && FirstOccurrence(cs, j)
    ensures cs[j].partNumber in Removals(qohParts, cs, overrides) <==> RemovalAt(qohParts, cs, overrides, j)
  {
    if cs[j].partNumber in Removals(qohParts, cs, overrides) {
      var k :| 0 <= k < |cs| && RemovalAt(qohParts, cs, overrides, k) && cs[k].partNumber == cs[j].partNumber;
      FirstOccurrenceUnique(cs, j, k);
    }
  }

  /** When no override record carries part `p`, the only row the additions
      can hold for `p` is the contribution of its first cycle-out row. */
  lemma AdditionsOfPart(qohParts: set<string>, cs: seq<CycleRecord>, overrides: Overrides, j: int)
    requires 0 <= j < |cs| && FirstOccurrence(cs, j)
    requires forall k :: k in overrides ==> overrides[k].partNumber != cs[j].partNumber
    ensures var adds := Additions(qohParts, cs, overrides);
            forall i :: 0 <= i < |adds| && adds[i].partNumber == cs[j].partNumber
              ==> Contribution(qohParts, cs, overrides, j) == [adds[i]]
  {
    var adds := Additions(qohParts, cs, overrides);
    AdditionsFrom(qohParts, cs, overrides);
    forall i | 0 <= i < |adds| && adds[i].partNumber == cs[j].partNumber
      ensures Contribution(qohParts, cs, overrides, j) == [adds[i]]
    {
      var a := adds[i];
      var k :| 0 <= k < |cs| && Contribution(qohParts, cs, overrides, k) == [a];
      FirstOccurrenceUnique(cs, j, k);
    }
  }

  /** First cycle-out row of a serialized part already on hand, with no
      override: the part is dropped from the result. */
  lemma SerializedExistingRemoved(qoh: seq<CycleRecord>, cs: seq<CycleRecord>, overrides: Overrides, j: int)
    requires 0 <= j < |cs| && FirstOccurrence(cs, j)
    requires cs[j].partNumber !in overrides && cs[j].partNumber in PartSet(qoh)
    requires cs[j].snFlag == Serialized
    ensures LastOf(Merged(qoh, cs, overrides), cs[j].partNumber) == None
  {
    MergedLookup(qoh, cs, overrides, cs[j].partNumber);
  }

  /** First cycle-out row of a bulk part not on hand, with no override (and
      no override record for that part): the row itself is in the result. */
  lemma BulkNewAdded(qoh: seq<CycleRecord>, cs: seq<CycleRecord>, overrides: Overrides, j: int)
    requires 0 <= j < |cs| && FirstOccurrence(cs, j)
    requires cs[j].partNumber !in overrides && cs[j].partNumber !in PartSet(qoh)
    requires cs[j].snFlag == NonSerialized
    requires forall k :: k in overrides ==> overrides[k].partNumber != cs[j].partNumber
    ensures LastOf(Merged(qoh, cs, overrides), cs[j].partNumber) == Some(cs[j])
  {
    var p := cs[j].partNumber;
    var qohParts := PartSet(qoh);
    var adds := Additions(qohParts, cs, overrides);
    MergedLookup(qoh, cs, overrides, p);
    RemovalsAtFirst(qohParts, cs, overrides, j);
    AdditionsHas(qohParts, cs, overrides, j);
    AdditionsOfPart(qohParts, cs, overrides, j);
    LastOfUnique(adds, p, cs[j]);
    LastOfAppend(qoh, adds, p);
  }

  /** First cycle-out row of a serialized part not on hand, or of a bulk (or
      unflagged) part already on hand, with no override: what the result
      holds for the part is what QOH held, so a new serialized part is not
      added and an existing bulk part keeps its QOH row. */
  lemma NoActionLeavesQoh(qoh: seq<CycleRecord>, cs: seq<CycleRecord>, overrides: Overrides, j: int)
    requires 0 <= j < |cs| && FirstOccurrence(cs, j)
    requires cs[j].partNumber !in overrides
    requires if cs[j].partNumber in PartSet(qoh) then cs[j].snFlag != Serialized
             else cs[j].snFlag != NonSerialized
    requires forall k :: k in overrides ==> overrides[k].partNumber != cs[j].partNumber
    ensures LastOf(Merged(qoh, cs, overrides), cs[j].partNumber) == LastOf(qoh, cs[j].partNumber)
  {
    var p := cs[j].partNumber;
    var qohParts := PartSet(qoh);
    var adds := Additions(qohParts, cs, overrides);
    MergedLookup(qoh, cs, overrides, p);
    RemovalsAtFirst(qohParts, cs, overrides, j);
    AdditionsOfPart(qohParts, cs, overrides, j);
    LastOfIsLast(adds, p);
    LastOfAppend(qoh, adds, p);
  }

  /** First cycle-out row whose part number is an override key: the override
      record is added and the part is never flagged for removal. */
  lemma OverrideInserted(qoh: seq<CycleRecord>, cs: seq<CycleRecord>, overrides: Overrides, j: int)
    requires 0 <= j < |cs| && FirstOccurrence(cs, j)
    requires cs[j].partNumber in overrides
    ensures var qohParts := PartSet(qoh);
            && overrides[cs[j].partNumber] in Additions(qohParts, cs, overrides)
            && cs[j].partNumber !in Removals(qohParts, cs, overrides)
  {
    var qohParts := PartSet(qoh);
    AdditionsHas(qohParts, cs, overrides, j);
    RemovalsAtFirst(qohParts, cs, overrides, j);
  }

  // ---------------------------------------------------------------------
  // The operation
  // ---------------------------------------------------------------------

  const CycleDataError: string := "cycle_data_error"
  const CycleDataSource: string := "sync.py:get_cycle_data"

  /** The merge as the source computes it, once both queries returned rows. */
  function MergeCycleData(qoh: seq<CycleRecord>, cycleOut: seq<CycleRecord>, overrides: Overrides): (r: seq<CycleRecord>)
    ensures r == Merged(qoh, cycleOut, overrides)
  {
    var st := Scan(qoh, cycleOut, overrides);
    ScanMatchesReference(qoh, cycleOut, overrides);
    DedupByPart(FilterOut(st.inventory, st.toRemove))
  }

  /** The error branch of `get_cycle_data`: a `cycle_data_error` carrying
      the first fault, or the "no records" message when a query came back
      empty. */
  function CycleDataFailure(cycleOutReply: QueryReply<CycleRecord>, qohReply: QueryReply<CycleRecord>,
                            log: ErrorLog, now: Time): (r: ErrorLog)
    ensures Appended(log, r, CycleDataError)
  {
    var reason :=
      if cycleOutReply.QueryFailed? then cycleOutReply.fault.reason
      else if qohReply.QueryFailed? then qohReply.fault.reason
      else "There are no inventory records present in the Fishbowl query. Sync failed.";
    LogSystemError(log, CycleDataError, "Failed to create cycle data: " + reason, CycleDataSource, now)
  }

  /** `get_cycle_data`: when either query failed or returned no rows the
      result is empty and a `cycle_data_error` is logged; otherwise it is the
      merge, and nothing is logged. */
  function GetCycleData(cycleOutReply: QueryReply<CycleRecord>, qohReply: QueryReply<CycleRecord>,
                        overrides: Overrides, log: ErrorLog, now: Time): (r: (seq<CycleRecord>, ErrorLog))
    ensures !(HasRows(cycleOutReply) && HasRows(qohReply)) ==>
              && r.0 == []
              && Appended(log, r.1, CycleDataError)
    ensures HasRows(cycleOutReply) && HasRows(qohReply) ==>
              r.0 == Merged(qohReply.rows, cycleOutReply.rows, overrides) && r.1 == log
  {
    if HasRows(cycleOutReply) && HasRows(qohReply) then
      (MergeCycleData(qohReply.rows, cycleOutReply.rows, overrides), log)
    else
      ([], CycleDataFailure(cycleOutReply, qohReply, log, now))
  }
}
