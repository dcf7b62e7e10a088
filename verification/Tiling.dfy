/** Ranges that tile the sources in file order, and the texts they cut out. */
module Tiling {
  import opened SourceText
  import opened AnchorResolution
  import opened EpisodeLedger
  import opened EpisodePlanner

  /** A position as (source index, offset). */
  datatype Place = Place(doc: nat, offset: nat)

  /** A non-empty range within a known source. */
  predicate Good(docs: seq<SourceDoc>, r: Range) {
    IndexOf(docs, r.file).Some? && 0 <= r.start < r.end <= |docs[IndexOf(docs, r.file).value].text|
  }

  function DocOf(docs: seq<SourceDoc>, r: Range): nat
    requires Good(docs, r)
  {
    IndexOf(docs, r.file).value
  }

  predicate AllGood(docs: seq<SourceDoc>, rs: seq<Range>) {
    forall i :: 0 <= i < |rs| ==> Good(docs, rs[i])
  }

  /** Where the next range has to start: the beginning, or the end of the last range. */
  function Front(docs: seq<SourceDoc>, rs: seq<Range>): Place
    requires AllGood(docs, rs)
  {
    if rs == [] then Place(0, 0) else Place(DocOf(docs, rs[|rs| - 1]), rs[|rs| - 1].end)
  }

  /** Only whitespace from `p` to the start of source `d`. */
  predicate BlankBetween(docs: seq<SourceDoc>, p: Place, d: nat) {
    && (p.doc < |docs| && p.doc < d ==> p.offset <= |docs[p.doc].text| && Blank(docs[p.doc].text[p.offset..]))
    && forall k :: p.doc < k < d && k < |docs| ==> Blank(docs[k].text)
  }

  /** `q` continues at `p`, or opens a later source with only whitespace left behind. */
  predicate Follows(docs: seq<SourceDoc>, p: Place, q: Place) {
    q == p || (p.doc < q.doc && q.offset == 0 && BlankBetween(docs, p, q.doc))
  }

  predicate Tiles(docs: seq<SourceDoc>, rs: seq<Range>) {
    && AllGood(docs, rs)
    && (rs != [] ==>
          var init, last := rs[..|rs| - 1], rs[|rs| - 1];
          Tiles(docs, init) && Follows(docs, Front(docs, init), Place(DocOf(docs, last), last.start)))
  }

  lemma TilesOneMore(docs: seq<SourceDoc>, rs: seq<Range>, r: Range)
    requires Tiles(docs, rs) && Good(docs, r) && Follows(docs, Front(docs, rs), Place(DocOf(docs, r), r.start))
    ensures Tiles(docs, rs + [r]) && Front(docs, rs + [r]) == Place(DocOf(docs, r), r.end)
  {
    assert (rs + [r])[..|rs|] == rs;
  }

  lemma {:induction false} TilesPrefix(docs: seq<SourceDoc>, rs: seq<Range>, n: nat)
    requires Tiles(docs, rs) && n <= |rs|
    ensures Tiles(docs, rs[..n])
  {
    if n < |rs| {
      TilesPrefix(docs, rs[..|rs| - 1], n);
      assert rs[..|rs| - 1][..n] == rs[..n];
    } else {
      assert rs[..n] == rs;
    }
  }

  // ---------------------------------------------------------------- every character once

  predicate Before(p: Place, q: Place) {
    p.doc < q.doc || (p.doc == q.doc && p.offset < q.offset)
  }

  predicate Holds(docs: seq<SourceDoc>, r: Range, p: Place) {
    Good(docs, r) && DocOf(docs, r) == p.doc && r.start <= p.offset < r.end
  }

  /** How many of the ranges hold the character at `p`. */
  function Count(docs: seq<SourceDoc>, rs: seq<Range>, p: Place): nat {
    if rs == [] then 0 else Count(docs, rs[..|rs| - 1], p) + if Holds(docs, rs[|rs| - 1], p) then 1 else 0
  }

  predicate InkAt(docs: seq<SourceDoc>, p: Place) {
    p.doc < |docs| && p.offset < |docs[p.doc].text| && !IsSpace(docs[p.doc].text[p.offset])
  }

  lemma NoInkBetween(docs: seq<SourceDoc>, p: Place, d: nat, q: Place)
    requires BlankBetween(docs, p, d)
    ensures !Before(q, p) && q.doc < d ==> !InkAt(docs, q)
  {
    if !Before(q, p) && q.doc < d && q.doc < |docs| && q.offset < |docs[q.doc].text| && q.doc == p.doc {
      assert docs[p.doc].text[p.offset..][q.offset - p.offset] == docs[q.doc].text[q.offset];
    }
  }

  /** Up to its front a tiling holds every non-whitespace character exactly once and no character
  twice; beyond the front it holds nothing. */
  lemma {:induction false} TilingCountsOnce(docs: seq<SourceDoc>, rs: seq<Range>, p: Place)
    requires Tiles(docs, rs)
    ensures Before(p, Front(docs, rs)) && InkAt(docs, p) ==> Count(docs, rs, p) == 1
    ensures !Before(p, Front(docs, rs)) ==> Count(docs, rs, p) == 0
    ensures Count(docs, rs, p) <= 1
  {
    if rs != [] {
      var init, last := rs[..|rs| - 1], rs[|rs| - 1];
      TilingCountsOnce(docs, init, p);
      var front := Front(docs, init);
      var start := Place(DocOf(docs, last), last.start);
      if start.doc != front.doc {
        NoInkBetween(docs, front, start.doc, p);
      }
    }
  }

  /** Nothing but whitespace from `p` on. */
  predicate BlankFrom(docs: seq<SourceDoc>, p: Place) {
    BlankBetween(docs, p, |docs|)
  }

  /** Every non-whitespace character of every source is in exactly one range. */
  ghost predicate EveryInkOnce(docs: seq<SourceDoc>, rs: seq<Range>) {
    forall p :: InkAt(docs, p) ==> Count(docs, rs, p) == 1
  }

  lemma BlankFromFrontCovers(docs: seq<SourceDoc>, rs: seq<Range>)
    requires Tiles(docs, rs) && BlankFrom(docs, Front(docs, rs))
    ensures EveryInkOnce(docs, rs)
  {
    var front := Front(docs, rs);
    forall p | InkAt(docs, p) ensures Count(docs, rs, p) == 1 {
      TilingCountsOnce(docs, rs, p);
      NoInkBetween(docs, front, |docs|, p);
    }
  }

  // ---------------------------------------------------------------- chains and partitions

  /** Touching non-empty pieces that make up exactly the slice. */
  predicate Chain(rs: seq<Range>, sl: Range) {
    && |rs| > 0
    && (forall i :: 0 <= i < |rs| ==> rs[i].file == sl.file && rs[i].start < rs[i].end)
    && rs[0].start == sl.start && rs[|rs| - 1].end == sl.end
    && (forall i :: 0 < i < |rs| ==> rs[i].start == rs[i - 1].end)
  }

  /** The ranges are, slice by slice, a chain of each slice. */
  ghost predicate Partition(slices: seq<Range>, rs: seq<Range>) {
    if slices == [] then rs == []
    else exists m :: 0 <= m < |rs| && Partition(slices[..|slices| - 1], rs[..m]) && Chain(rs[m..], slices[|slices| - 1])
  }

  lemma PartitionOneMore(slices: seq<Range>, rs: seq<Range>, sl: Range, chain: seq<Range>)
    requires Partition(slices, rs) && Chain(chain, sl)
    ensures Partition(slices + [sl], rs + chain)
  {
    var all := rs + chain;
    assert all[..|rs|] == rs && all[|rs|..] == chain && (slices + [sl])[..|slices|] == slices;
  }

  /** The pieces between consecutive cuts form a chain. */
  lemma PiecesChain(file: RelPath, start: nat, ends: seq<nat>, size: nat)
    requires Cuts(ends, size)
    ensures Chain(Pieces(file, start, ends), Range(file, start, start + ends[|ends| - 1]))
  {
    var rs := Pieces(file, start, ends);
    forall i | 0 < i < |rs| ensures rs[i].start == rs[i - 1].end && rs[i].start < rs[i].end {
      assert ends[i - 1] < ends[i];
    }
    assert rs[0].start < rs[0].end;
  }

  /** A chain may replace its slice at the end of a tiling, and the other way round. */
  lemma {:induction false} ChainTiles(docs: seq<SourceDoc>, rs: seq<Range>, chain: seq<Range>, sl: Range)
    requires Tiles(docs, rs) && Good(docs, sl) && Follows(docs, Front(docs, rs), Place(DocOf(docs, sl), sl.start))
    requires Chain(chain, sl)
    ensures Tiles(docs, rs + chain) && Front(docs, rs + chain) == Place(DocOf(docs, sl), sl.end)
  {
    hide IndexOf, BlankBetween;
    if |chain| == 1 {
      assert chain == [sl];
      TilesOneMore(docs, rs, sl);
    } else {
      var init, last := chain[..|chain| - 1], chain[|chain| - 1];
      ChainInit(chain, sl);
      ChainTiles(docs, rs, init, sl.(end := last.start));
      TilesOneMore(docs, rs + init, last);
      assert rs + chain == rs + init + [last];
    }
  }

  /** Without its last piece a chain makes up the slice up to that piece. */
  lemma ChainInit(chain: seq<Range>, sl: Range)
    requires Chain(chain, sl) && |chain| > 1
    ensures Chain(chain[..|chain| - 1], sl.(end := chain[|chain| - 1].start))
    ensures sl.start < chain[|chain| - 1].start < sl.end
  {
    ChainEndsWithin(chain, sl, |chain| - 2);
  }

  lemma {:induction false} ChainEndsWithin(chain: seq<Range>, sl: Range, i: nat)
    requires Chain(chain, sl) && i < |chain|
    ensures sl.start < chain[i].end <= sl.end
    ensures sl.start <= chain[i].start
    decreases |chain| - i
  {
    ChainStartsAt(chain, sl, i);
    ChainEndsAt(chain, sl, i);
  }

  lemma {:induction false} ChainStartsAt(chain: seq<Range>, sl: Range, i: nat)
    requires Chain(chain, sl) && i < |chain|
    ensures sl.start <= chain[i].start < chain[i].end
  {
    if i > 0 {
      ChainStartsAt(chain, sl, i - 1);
    }
  }

  lemma {:induction false} ChainEndsAt(chain: seq<Range>, sl: Range, i: nat)
    requires Chain(chain, sl) && i < |chain|
    ensures chain[i].end <= sl.end
    decreases |chain| - i
  {
    if i + 1 < |chain| {
      ChainEndsAt(chain, sl, i + 1);
    }
  }

  /** If a chain ends a tiling, its slice could stand there instead. */
  lemma {:induction false} ChainCoarsens(docs: seq<SourceDoc>, rs: seq<Range>, chain: seq<Range>, sl: Range)
    requires Tiles(docs, rs + chain) && Chain(chain, sl)
    ensures Tiles(docs, rs) && Good(docs, sl)
    ensures Follows(docs, Front(docs, rs), Place(DocOf(docs, sl), sl.start))
    ensures Front(docs, rs + chain) == Place(DocOf(docs, sl), sl.end)
  {
    TilesPrefix(docs, rs + chain, |rs| + 1);
    assert (rs + chain)[..|rs| + 1] == rs + [chain[0]];
    assert (rs + [chain[0]])[..|rs|] == rs;
    assert (rs + chain)[|rs|] == chain[0];
    assert (rs + chain)[|rs| + |chain| - 1] == chain[|chain| - 1];
    ChainEndsWithin(chain, sl, 0);
  }

  lemma NoSlices(rs: seq<Range>)
    requires Partition([], rs)
    ensures rs == []
  {
  }

  /** Where the chain of the last slice starts. */
  lemma LastChain(slices: seq<Range>, rs: seq<Range>) returns (m: nat)
    requires slices != [] && Partition(slices, rs)
    ensures m < |rs| && Partition(slices[..|slices| - 1], rs[..m]) && Chain(rs[m..], slices[|slices| - 1])
  {
    hide Chain;
    m :| 0 <= m < |rs| && Partition(slices[..|slices| - 1], rs[..m]) && Chain(rs[m..], slices[|slices| - 1]);
  }

  /** Two partitions of the same slices are interchangeable at the end of a tiling. */
  lemma {:induction false} RepartitionTiles(docs: seq<SourceDoc>, pre: seq<Range>, slices: seq<Range>, a: seq<Range>,
      b: seq<Range>)
    requires Tiles(docs, pre + a) && Partition(slices, a) && Partition(slices, b)
    ensures Tiles(docs, pre + b) && Front(docs, pre + b) == Front(docs, pre + a)
  {
    hide *;
    if slices == [] {
      NoSlices(a);
      NoSlices(b);
    } else {
      var init, sl := slices[..|slices| - 1], slices[|slices| - 1];
      var m := LastChain(slices, a);
      var k := LastChain(slices, b);
      assert pre + a == pre + a[..m] + a[m..];
      assert pre + b == pre + b[..k] + b[k..];
      ChainCoarsens(docs, pre + a[..m], a[m..], sl);
      RepartitionTiles(docs, pre, init, a[..m], b[..k]);
      ChainTiles(docs, pre + b[..k], b[k..], sl);
    }
  }

  // ---------------------------------------------------------------- texts

  /** The concatenated texts of the ranges. */
  function TextsOf(docs: seq<SourceDoc>, rs: seq<Range>): string {
    if rs == [] then ""
    else TextsOf(docs, rs[..|rs| - 1]) + (match Cut(docs, rs[|rs| - 1]) case Ok(t) => t case Fail(_) => "")
  }

  lemma {:induction false} TextsConcat(docs: seq<SourceDoc>, a: seq<Range>, b: seq<Range>)
    ensures TextsOf(docs, a + b) == TextsOf(docs, a) + TextsOf(docs, b)
  {
    hide Cut;
    if b == [] {
      assert a + b == a;
    } else {
      assert (a + b)[..|a + b| - 1] == a + b[..|b| - 1];
      TextsConcat(docs, a, b[..|b| - 1]);
    }
  }

  lemma {:induction false} ChainText(docs: seq<SourceDoc>, chain: seq<Range>, sl: Range)
    requires Good(docs, sl) && Chain(chain, sl)
    ensures TextsOf(docs, chain) == docs[DocOf(docs, sl)].text[sl.start..sl.end]
  {
    var text := docs[DocOf(docs, sl)].text;
    if |chain| == 1 {
      assert chain == [sl] && chain[..0] == [];
    } else {
      var last := chain[|chain| - 1];
      ChainInit(chain, sl);
      ChainText(docs, chain[..|chain| - 1], sl.(end := last.start));
      assert text[sl.start..sl.end] == text[sl.start..last.start] + text[last.start..sl.end];
    }
  }

  /** Two partitions of the same slices cut out the same text. */
  lemma {:induction false} RepartitionText(docs: seq<SourceDoc>, slices: seq<Range>, a: seq<Range>, b: seq<Range>)
    requires AllGood(docs, slices) && Partition(slices, a) && Partition(slices, b)
    ensures TextsOf(docs, a) == TextsOf(docs, b)
  {
    hide IndexOf, TextsOf, Chain;
    if slices != [] {
      var init, sl := slices[..|slices| - 1], slices[|slices| - 1];
      var m :| 0 <= m < |a| && Partition(init, a[..m]) && Chain(a[m..], sl);
      var k :| 0 <= k < |b| && Partition(init, b[..k]) && Chain(b[k..], sl);
      assert a == a[..m] + a[m..] && b == b[..k] + b[k..];
      RepartitionText(docs, init, a[..m], b[..k]);
      ChainText(docs, a[m..], sl);
      ChainText(docs, b[k..], sl);
      TextsConcat(docs, a[..m], a[m..]);
      TextsConcat(docs, b[..k], b[k..]);
    }
  }
}
