/** The style profiler: the body-text font size of a document is the rounded
    span size that carries the most stripped characters. */
module StyleProfile {
  import opened Wrappers
  import opened PyText
  import Seqs
  import opened Document

  /** Python's `round(x)` on a float: the nearest integer, ties to even. */
  function RoundHalfEven(x: real): (n: int)
    ensures -0.5 <= x - n as real <= 0.5
    ensures (x - n as real == 0.5 || n as real - x == 0.5) ==> n % 2 == 0
  {
    var f := x.Floor;
    var d := x - f as real;
    if d < 0.5 then f
    else if d > 0.5 then f + 1
    else if f % 2 == 0 then f
    else f + 1
  }

  /** The two postconditions of `RoundHalfEven` single out one integer. */
  lemma RoundHalfEvenUnique(x: real, m: int)
    requires -0.5 <= x - m as real <= 0.5
    requires (x - m as real == 0.5 || m as real - x == 0.5) ==> m % 2 == 0
    ensures m == RoundHalfEven(x)
  {
  }

  /** One counted span: the key `round(size)` and the increment `len(text.strip())`. */
  datatype Tally = Tally(size: int, weight: nat)

  function SpanTally(s: Span): Tally {
    Tally(RoundHalfEven(s.size), |Strip(s.text)|)
  }

  function LineTallies(lines: seq<Line>): seq<Tally> {
    if lines == [] then []
    else LineTallies(lines[..|lines| - 1]) + Seqs.Map(SpanTally, lines[|lines| - 1].spans)
  }

  function PageTallies(blocks: seq<Block>): seq<Tally> {
    if blocks == [] then []
    else
      var b := blocks[|blocks| - 1];
      PageTallies(blocks[..|blocks| - 1]) + (if b.lines.Some? then LineTallies(b.lines.value) else [])
  }

  /** Every span of the document, in document order; blocks without lines contribute nothing. */
  function DocTallies(doc: seq<Page>): seq<Tally> {
    if doc == [] then [] else DocTallies(doc[..|doc| - 1]) + PageTallies(doc[|doc| - 1].blocks)
  }

  /** The counter's value for key `k`: the summed weight of the tallies with that size. */
  function Weight(entries: seq<Tally>, k: int): nat {
    if entries == [] then 0
    else
      var e := entries[|entries| - 1];
      Weight(entries[..|entries| - 1], k) + (if e.size == k then e.weight else 0)
  }

  predicate Distinct(ks: seq<int>) {
    forall i, j :: 0 <= i < j < |ks| ==> ks[i] != ks[j]
  }

  /** The counter's keys in insertion order: each size once, where it is first seen. */
  function Sizes(entries: seq<Tally>): (ks: seq<int>)
    ensures Distinct(ks)
    ensures forall k :: k in ks <==> exists i :: 0 <= i < |entries| && entries[i].size == k
  {
    if entries == [] then []
    else
      var init := entries[..|entries| - 1];
      var ks0 := Sizes(init);
      var k := entries[|entries| - 1].size;
      assert forall j :: 0 <= j < |init| ==> init[j] == entries[j];
      if k in ks0 then ks0 else ks0 + [k]
  }

  /** Index of the first key of greatest weight: `max(items, key=count)` keeps the earliest maximum. */
  function Heaviest(entries: seq<Tally>, ks: seq<int>): (b: nat)
    requires ks != []
    ensures b < |ks|
    ensures forall j :: 0 <= j < |ks| ==> Weight(entries, ks[j]) <= Weight(entries, ks[b])
    ensures forall j :: 0 <= j < b ==> Weight(entries, ks[j]) < Weight(entries, ks[b])
  {
    if |ks| == 1 then 0
    else
      var init := ks[..|ks| - 1];
      var b0 := Heaviest(entries, init);
      assert forall j :: 0 <= j < |init| ==> init[j] == ks[j];
      if Weight(entries, ks[|ks| - 1]) > Weight(entries, ks[b0]) then |ks| - 1 else b0
  }

  /** `get_style_profile`: 10 for a document without spans, otherwise `most_common(1)`. */
  function Mode(entries: seq<Tally>): (m: int)
    ensures entries == [] ==> m == 10
    ensures entries != [] ==> exists i :: 0 <= i < |entries| && entries[i].size == m
  {
    if entries == [] then 10
    else
      var ks := Sizes(entries);
      assert entries[0].size in ks;
      var b := Heaviest(entries, ks);
      assert ks[b] in ks;
      ks[b]
  }

  /** The keys of a prefix come first, in the same order, among the keys of the whole. */
  lemma {:induction false} SizesPrefix(entries: seq<Tally>, m: nat)
    requires m <= |entries|
    ensures Sizes(entries[..m]) <= Sizes(entries)
    decreases |entries|
  {
    if m < |entries| {
      var init := entries[..|entries| - 1];
      assert entries[..m] == init[..m];
      SizesPrefix(init, m);
    } else {
      assert entries[..m] == entries;
    }
  }

  lemma {:induction false} UnseenSize(entries: seq<Tally>, i: nat, k: int)
    requires i < |entries|
    requires forall j :: 0 <= j <= i ==> entries[j].size != k
    ensures k !in Sizes(entries[..i + 1])
  {
  }

  /** Where the size of entry `i` sits among the keys: within the keys of the first `i + 1` entries. */
  lemma KeyIndexOf(entries: seq<Tally>, i: nat) returns (a: nat)
    requires i < |entries|
    ensures a < |Sizes(entries[..i + 1])| && a < |Sizes(entries)|
    ensures Sizes(entries)[a] == entries[i].size
  {
    var pre := entries[..i + 1];
    SizesPrefix(entries, i + 1);
    assert pre[i] == entries[i];
    a :| 0 <= a < |Sizes(pre)| && Sizes(pre)[a] == entries[i].size;
  }

  /** A key not among the first `i + 1` entries has an index past their keys. */
  lemma KeyIndexAfter(entries: seq<Tally>, i: nat, b: nat)
    requires i < |entries| && b < |Sizes(entries)|
    requires forall j :: 0 <= j <= i ==> entries[j].size != Sizes(entries)[b]
    ensures b >= |Sizes(entries[..i + 1])|
  {
    SizesPrefix(entries, i + 1);
    UnseenSize(entries, i, Sizes(entries)[b]);
  }

  /** A size first seen before the profile's first occurrence weighs strictly less. */
  lemma EarlierSizeLighter(entries: seq<Tally>, i: nat)
    requires i < |entries|
    requires forall j :: 0 <= j <= i ==> entries[j].size != Mode(entries)
    ensures Weight(entries, entries[i].size) < Weight(entries, Mode(entries))
  {
    var ks := Sizes(entries);
    var b := Heaviest(entries, ks);
    KeyIndexAfter(entries, i, b);
    var a := KeyIndexOf(entries, i);
  }

  /** A size that never occurs has not been counted. */
  lemma {:induction false} UnseenWeighsNothing(entries: seq<Tally>, k: int)
    requires k !in Sizes(entries)
    ensures Weight(entries, k) == 0
  {
    if entries != [] {
      var init := entries[..|entries| - 1];
      UnseenWeighsNothing(init, k);
    }
  }

  lemma ModeOutweighs(entries: seq<Tally>, i: nat)
    requires i < |entries|
    ensures Weight(entries, entries[i].size) <= Weight(entries, Mode(entries))
  {
    var a := KeyIndexOf(entries, i);
  }

  /** The profile is a size that occurs, no size outweighs it, and every size
      first seen before it weighs strictly less (ties go to the earliest). */
  lemma ModeIsEarliestHeaviest(entries: seq<Tally>)
    ensures entries == [] ==> Mode(entries) == 10
    ensures entries != [] ==> exists i :: 0 <= i < |entries| && entries[i].size == Mode(entries)
    ensures forall i :: 0 <= i < |entries| ==>
      Weight(entries, entries[i].size) <= Weight(entries, Mode(entries))
    ensures forall i :: 0 <= i < |entries| && (forall j :: 0 <= j <= i ==> entries[j].size != Mode(entries)) ==>
      Weight(entries, entries[i].size) < Weight(entries, Mode(entries))
  {
    if entries != [] {
      assert Mode(entries) in Sizes(entries);
    }
    forall i | 0 <= i < |entries|
      ensures Weight(entries, entries[i].size) <= Weight(entries, Mode(entries))
    {
      ModeOutweighs(entries, i);
    }
    forall i | 0 <= i < |entries| && (forall j :: 0 <= j <= i ==> entries[j].size != Mode(entries))
      ensures Weight(entries, entries[i].size) < Weight(entries, Mode(entries))
    {
      EarlierSizeLighter(entries, i);
    }
  }

  /** The `font_counts` loop: the counter's keys in insertion order and its values. */
  method CountSizes(entries: seq<Tally>) returns (keys: seq<int>, counts: map<int, nat>)
    ensures keys == Sizes(entries)
    ensures forall k :: k in counts <==> k in keys
    ensures forall k :: k in counts ==> counts[k] == Weight(entries, k)
  {
    keys := [];
    counts := map[];
    var i := 0;
    while i < |entries|
      invariant 0 <= i <= |entries|
      invariant keys == Sizes(entries[..i])
      invariant forall k :: k in counts <==> k in keys
      invariant forall k :: k in counts ==> counts[k] == Weight(entries[..i], k)
    {
      var e := entries[i];
      assert entries[..i + 1][..i] == entries[..i];
      assert forall k :: Weight(entries[..i + 1], k) == Weight(entries[..i], k) + (if e.size == k then e.weight else 0);
      if e.size in counts {
        counts := counts[e.size := counts[e.size] + e.weight];
      } else {
        UnseenWeighsNothing(entries[..i], e.size);
        keys := keys + [e.size];
        counts := counts[e.size := e.weight];
      }
      i := i + 1;
    }
    assert entries[..i] == entries;
  }

  /** `most_common(1)`: the index of the first key whose count is greatest. */
  method MostCommon(entries: seq<Tally>, keys: seq<int>, counts: map<int, nat>) returns (best: nat)
    requires keys != []
    requires forall j :: 0 <= j < |keys| ==> keys[j] in counts && counts[keys[j]] == Weight(entries, keys[j])
    ensures best == Heaviest(entries, keys)
  {
    best := 0;
    var j := 1;
    while j < |keys|
      invariant 1 <= j <= |keys|
      invariant best == Heaviest(entries, keys[..j])
    {
      assert keys[..j + 1][..j] == keys[..j];
      if counts[keys[j]] > counts[keys[best]] {
        best := j;
      }
      j := j + 1;
    }
    assert keys[..j] == keys;
  }

  /** `get_style_profile` over the flattened spans: count into a counter
      whose keys keep insertion order, then take the most common key. */
  method BodySize(entries: seq<Tally>) returns (body: int)
    ensures body == Mode(entries)
  {
    var keys, counts := CountSizes(entries);
    if |counts| == 0 {
      return 10;
    }
    assert keys != [] by {
      if keys == [] {
        assert forall k :: k !in counts;
      }
    }
    assert forall j :: 0 <= j < |keys| ==> keys[j] in keys;
    var best := MostCommon(entries, keys, counts);
    body := keys[best];
  }
}
