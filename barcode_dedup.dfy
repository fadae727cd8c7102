/**
 * The de-duplication of barcodes in the migration to the normalised
 * database: scanning the barcodes in row order, the first occurrence of a
 * barcode is kept, its `k`-th repetition becomes `<barcode>_dup<k>`, and a
 * missing barcode stays missing. The number of renamed barcodes is then
 * counted as the outputs containing `_dup`.
 */
module BarcodeDedup {
  import opened Wrappers
  import opened Text

  const DupMarker: string := "_dup"

  /** How many times barcode `b` occurs in `bs`. */
  function Occurrences(bs: seq<Option<string>>, b: string): nat
    decreases |bs|
  {
    if bs == [] then 0
    else Occurrences(bs[..|bs| - 1], b) + if bs[|bs| - 1] == Some(b) then 1 else 0
  }

  /** The name the `k`-th repetition of `b` gets (the 0-th being the first occurrence). */
  function DupName(b: string, k: nat): (n: string)
    ensures |b| <= |n| && n[..|b|] == b
    ensures k == 0 <==> n == b
    ensures k > 0 ==> CountsAsDuplicate(Some(n))
  {
    if k == 0 then b
    else
      var n := b + DupMarker + NatToString(k);
      assert n[|b|..|b| + |DupMarker|] == DupMarker;
      ContainsAt(n, DupMarker, |b|);
      n
  }

  /** The renamed list: each barcode is named after the number of times it occurred before. */
  function Renamed(bs: seq<Option<string>>): (out: seq<Option<string>>)
    ensures |out| == |bs|
    decreases |bs|
  {
    if bs == [] then []
    else
      var init := bs[..|bs| - 1];
      Renamed(init) + match bs[|bs| - 1]
        case None => [None]
        case Some(b) => [Some(DupName(b, Occurrences(init, b)))]
  }

  /** An output counts as a renamed duplicate when it is present, non-empty and contains `_dup`. */
  predicate CountsAsDuplicate(x: Option<string>) {
    x.Some? && |x.value| > 0 && Contains(x.value, DupMarker)
  }

  /** `nb_duplicates`: the outputs that count as renamed duplicates. */
  function DupCount(out: seq<Option<string>>): (n: nat)
    ensures n <= PresentCount(out)
    decreases |out|
  {
    if out == [] then 0
    else DupCount(out[..|out| - 1]) + if CountsAsDuplicate(out[|out| - 1]) then 1 else 0
  }

  /** The loop over `df['barcode']` with the `barcode_counts` dictionary, then the duplicate count. */
  method RenameDuplicates(barcodes: seq<Option<string>>) returns (unique: seq<Option<string>>, nbDuplicates: nat)
    ensures unique == Renamed(barcodes)
    ensures nbDuplicates == DupCount(unique)
  {
    var counts: map<string, nat> := map[];
    unique := [];
    for i := 0 to |barcodes|
      invariant unique == Renamed(barcodes[..i])
      invariant forall b :: b in counts <==> Occurrences(barcodes[..i], b) > 0
      invariant forall b | b in counts :: counts[b] == Occurrences(barcodes[..i], b) - 1
    {
      assert barcodes[..i + 1][..i] == barcodes[..i];
      match barcodes[i]
      case None =>
        unique := unique + [None];
      case Some(b) =>
        if b !in counts {
          counts := counts[b := 0];
          unique := unique + [Some(b)];
        } else {
          counts := counts[b := counts[b] + 1];
          unique := unique + [Some(b + DupMarker + NatToString(counts[b]))];
        }
    }
    assert barcodes[..|barcodes|] == barcodes;
    nbDuplicates := DupCount(unique);
  }

  /**
   * Position by position: a missing barcode stays missing, and a barcode
   * that occurred `k` times before gets its `k`-th name, counters being kept
   * per barcode.
   */
  lemma {:induction false} RenamedAt(bs: seq<Option<string>>, i: nat)
    requires i < |bs|
    ensures bs[i].None? ==> Renamed(bs)[i].None?
    ensures bs[i].Some? ==> Renamed(bs)[i] == Some(DupName(bs[i].value, Occurrences(bs[..i], bs[i].value)))
    decreases |bs|
  {
    var init := bs[..|bs| - 1];
    if i < |bs| - 1 {
      RenamedAt(init, i);
      assert init[..i] == bs[..i];
    } else {
      assert init == bs[..i];
    }
  }

  lemma {:induction false} OccurrencesAppend(a: seq<Option<string>>, x: Option<string>, b: string)
    ensures Occurrences(a + [x], b) == Occurrences(a, b) + if x == Some(b) then 1 else 0
  {
    assert (a + [x])[..|a|] == a;
  }

  /** Occurrences only grow along a list, and strictly past an occurrence. */
  lemma {:induction false} OccurrencesGrow(bs: seq<Option<string>>, i: nat, j: nat, b: string)
    requires i < j <= |bs| && bs[i] == Some(b)
    ensures Occurrences(bs[..j], b) >= Occurrences(bs[..i], b) + 1
    decreases j - i
  {
    if j == i + 1 {
      assert bs[..j] == bs[..i] + [bs[i]];
      OccurrencesAppend(bs[..i], bs[i], b);
    } else {
      OccurrencesGrow(bs, i, j - 1, b);
      assert bs[..j] == bs[..j - 1] + [bs[j - 1]];
      OccurrencesAppend(bs[..j - 1], bs[j - 1], b);
    }
  }

  /** The first occurrence of each barcode is kept unchanged. */
  lemma FirstOccurrenceKept(bs: seq<Option<string>>, i: nat)
    requires i < |bs| && bs[i].Some?
    requires forall j | 0 <= j < i :: bs[j] != bs[i]
    ensures Renamed(bs)[i] == bs[i]
  {
    RenamedAt(bs, i);
    NoOccurrences(bs[..i], bs[i].value);
  }

  lemma {:induction false} NoOccurrences(bs: seq<Option<string>>, b: string)
    requires forall j | 0 <= j < |bs| :: bs[j] != Some(b)
    ensures Occurrences(bs, b) == 0
    decreases |bs|
  {
    if bs != [] {
      NoOccurrences(bs[..|bs| - 1], b);
    }
  }

  /** The barcodes present in `bs`. */
  function PresentSet(bs: seq<Option<string>>): set<string> {
    set x | x in bs && x.Some? :: x.value
  }

  /** The number of present barcodes. */
  function PresentCount(bs: seq<Option<string>>): nat
    decreases |bs|
  {
    if bs == [] then 0 else PresentCount(bs[..|bs| - 1]) + if bs[|bs| - 1].Some? then 1 else 0
  }

  /** No input barcode contains `_dup` itself. */
  predicate Unmarked(bs: seq<Option<string>>) {
    forall j | 0 <= j < |bs| && bs[j].Some? :: !Contains(bs[j].value, DupMarker)
  }

  lemma DupCountAppend(out: seq<Option<string>>, x: Option<string>)
    ensures DupCount(out + [x]) == DupCount(out) + if CountsAsDuplicate(x) then 1 else 0
  {
    assert (out + [x])[..|out|] == out;
  }

  lemma PresentAppend(bs: seq<Option<string>>, x: Option<string>)
    ensures PresentSet(bs + [x]) == PresentSet(bs) + if x.Some? then {x.value} else {}
    ensures PresentCount(bs + [x]) == PresentCount(bs) + if x.Some? then 1 else 0
  {
    assert (bs + [x])[..|bs|] == bs;
  }

  /** A barcode has occurred exactly when it is among the present ones. */
  lemma SeenIff(bs: seq<Option<string>>, b: string)
    ensures b in PresentSet(bs) <==> Occurrences(bs, b) > 0
  {
    if b in PresentSet(bs) {
      var j :| 0 <= j < |bs| && bs[j] == Some(b);
      OccurrencesGrow(bs, j, |bs|, b);
      assert bs[..|bs|] == bs;
    } else {
      NoOccurrences(bs, b);
    }
  }

  /** The renamed entry of one more barcode counts as a duplicate exactly when the barcode was seen before. */
  lemma RenamedLastCounts(bs: seq<Option<string>>, b: string)
    requires !Contains(b, DupMarker)
    ensures CountsAsDuplicate(Some(DupName(b, Occurrences(bs, b)))) <==> b in PresentSet(bs)
  {
    SeenIff(bs, b);
  }

  /**
   * When no input barcode already contains `_dup`, the number of renamed
   * duplicates is the number of present barcodes minus the number of
   * distinct ones: the sum over each barcode of its occurrences minus one.
   */
  lemma {:induction false} DupCountFormula(bs: seq<Option<string>>)
    requires Unmarked(bs)
    ensures DupCount(Renamed(bs)) + |PresentSet(bs)| == PresentCount(bs)
    decreases |bs|
  {
    if bs != [] {
      var init := bs[..|bs| - 1];
      var x := bs[|bs| - 1];
      assert bs == init + [x];
      assert Unmarked(init);
      DupCountFormula(init);
      PresentAppend(init, x);
      match x
      case None =>
        DupCountAppend(Renamed(init), None);
      case Some(b) =>
        var y := Some(DupName(b, Occurrences(init, b)));
        assert Renamed(bs) == Renamed(init) + [y];
        DupCountAppend(Renamed(init), y);
        RenamedLastCounts(init, b);
    }
  }

  /** Two renamed names with the same text come from the same barcode and the same repetition. */
  lemma DupNameInjective(b: string, k: nat, c: string, m: nat)
    requires k > 0 && m > 0
    requires DupName(b, k) == DupName(c, m)
    ensures b == c && k == m
  {
    var dk := NatToString(k);
    var dm := NatToString(m);
    var s := b + DupMarker + dk;
    var t := c + DupMarker + dm;
    assert |dk| == |dm| by {
      assert s[|s| - |dk| - 1] == 'p' && t[|t| - |dm| - 1] == 'p';
      assert forall i | |s| - |dk| <= i < |s| :: IsDigit(s[i]);
      assert forall i | |t| - |dm| <= i < |t| :: IsDigit(t[i]);
    }
    assert dk == s[|s| - |dk|..] == t[|t| - |dm|..] == dm;
    NatToStringInjective(k, m);
    assert b + DupMarker == s[..|s| - |dk|] == t[..|t| - |dm|] == c + DupMarker;
    assert b == (b + DupMarker)[..|b|];
    assert c == (c + DupMarker)[..|c|];
  }

  /**
   * When no input barcode already contains `_dup`, the present outputs are
   * pairwise distinct.
   */
  lemma RenamedUnique(bs: seq<Option<string>>, i: nat, j: nat)
    requires Unmarked(bs)
    requires i < j < |bs| && bs[i].Some? && bs[j].Some?
    ensures Renamed(bs)[i] != Renamed(bs)[j]
  {
    var b := bs[i].value;
    var c := bs[j].value;
    var k := Occurrences(bs[..i], b);
    var m := Occurrences(bs[..j], c);
    RenamedAt(bs, i);
    RenamedAt(bs, j);
    if DupName(b, k) == DupName(c, m) {
      if k == 0 && m == 0 {
        OccurrencesGrow(bs, i, j, b);
      } else if k != 0 && m != 0 {
        DupNameInjective(b, k, c, m);
        OccurrencesGrow(bs, i, j, b);
      }
    }
  }

  /**
   * Without the precondition the outputs can collide: a barcode that
   * already reads `A_dup1` is renamed to the same text as the first
   * repetition of `A`.
   */
  lemma CollisionWithMarkedInput()
    ensures Renamed([Some("A"), Some("A"), Some("A_dup1")]) == [Some("A"), Some("A_dup1"), Some("A_dup1")]
  {
    var bs := [Some("A"), Some("A"), Some("A_dup1")];
    var out := Renamed(bs);
    assert NatToString(1) == "1";
    assert DupName("A", 1) == "A_dup1";
    RenamedAt(bs, 0);
    RenamedAt(bs, 1);
    RenamedAt(bs, 2);
    assert bs[..0] == [];
    assert Occurrences(bs[..1], "A") == 1 by {
      assert bs[..1] == [] + [Some("A")];
      OccurrencesAppend([], Some("A"), "A");
    }
    assert Occurrences(bs[..2], "A_dup1") == 0 by {
      NoOccurrences(bs[..2], "A_dup1");
    }
    assert out[0] == Some("A") && out[1] == Some("A_dup1") && out[2] == Some("A_dup1");
  }
}
