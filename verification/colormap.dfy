/** The segment table of `make_colormap` (artists.py:373-381).

    The input is a sequence of positions and RGB colours. It is padded with
    an all-`None` colour and the position 0.0 in front and the position 1.0
    and an all-`None` colour behind. Every position then yields one
    `[x, left, right]` entry per channel, where `left` and `right` are that
    channel of the items just before and just after it. A position whose
    neighbour is another position makes Python's tuple unpacking raise. The
    `LinearSegmentedColormap` built from the table is not part of this
    model. */
module Colormap {
  import opened Results

  datatype Item = Pos(x: real) | Color(r: real, g: real, b: real)

  datatype Channel = Red | Green | Blue

  /** One `[x, left, right]` row of a channel's segment list. */
  datatype Entry = Entry(x: real, left: Option<real>, right: Option<real>)

  /** `cdict`: one segment list per channel. */
  datatype SegmentData = SegmentData(red: seq<Entry>, green: seq<Entry>, blue: seq<Entry>)

  /** The TypeError raised when a position is unpacked as a colour. */
  datatype ColormapError = PositionNotFlanked

  function Of(d: SegmentData, c: Channel): seq<Entry>
  {
    match c
    case Red => d.red
    case Green => d.green
    case Blue => d.blue
  }

  /** A slot of the padded sequence; None is the `(None, None, None)` pad. */
  type Slot = Option<Item>

  predicate IsPos(slot: Slot)
  {
    slot.Some? && slot.value.Pos?
  }

  /** One channel of a colour slot; None for the padding colour. */
  function Component(slot: Slot, c: Channel): Option<real>
    requires !IsPos(slot)
  {
    match slot
    case None => None
    case Some(item) => Some(Pick(item, c))
  }

  function Pick(item: Item, c: Channel): real
    requires item.Color?
  {
    match c
    case Red => item.r
    case Green => item.g
    case Blue => item.b
  }

  /** `[(None,) * 3, 0.0] + list(seq) + [1.0, (None,) * 3]`. */
  function Padded(s: seq<Item>): (p: seq<Slot>)
    ensures |p| == |s| + 4
    ensures p[0] == None && p[1] == Some(Pos(0.0))
    ensures p[|s| + 2] == Some(Pos(1.0)) && p[|s| + 3] == None
    ensures forall i :: 0 <= i < |s| ==> p[i + 2] == Some(s[i])
  {
    [None, Some(Pos(0.0))] + seq(|s|, i requires 0 <= i < |s| => Some(s[i])) + [Some(Pos(1.0)), None]
  }

  /** The shape every padded sequence has: colour slots at both ends. */
  predicate PadShape(p: seq<Slot>)
  {
    |p| >= 2 && !IsPos(p[0]) && !IsPos(p[|p| - 1])
  }

  /** The loop of `make_colormap` from slot `k` on: colour slots are skipped,
      a position adds an entry to every channel, and a position next to
      another position raises. */
  function Build(p: seq<Slot>, k: nat): (r: Result<SegmentData, ColormapError>)
    requires PadShape(p)
    decreases |p| - k
  {
    if k >= |p| then Success(SegmentData([], [], []))
    else if !IsPos(p[k]) then Build(p, k + 1)
    else if IsPos(p[k - 1]) || IsPos(p[k + 1]) then Failure(PositionNotFlanked)
    else
      match Build(p, k + 1)
      case Failure(e) => Failure(e)
      case Success(d) =>
        var x := p[k].value.x;
        Success(SegmentData(
          [Entry(x, Component(p[k - 1], Red), Component(p[k + 1], Red))] + d.red,
          [Entry(x, Component(p[k - 1], Green), Component(p[k + 1], Green))] + d.green,
          [Entry(x, Component(p[k - 1], Blue), Component(p[k + 1], Blue))] + d.blue))
  }

  /** `make_colormap` up to the colormap constructor. */
  function MakeColormap(s: seq<Item>): Result<SegmentData, ColormapError>
  {
    Build(Padded(s), 0)
  }

  // ------------------------------------------------------------- reference

  /** The number of position slots. */
  function PosCount(p: seq<Slot>): nat
  {
    if |p| == 0 then 0 else (if IsPos(p[0]) then 1 else 0) + PosCount(p[1..])
  }

  /** The x values of the position items, in order. */
  function Positions(s: seq<Item>): (xs: seq<real>)
    ensures |xs| <= |s|
  {
    if |s| == 0 then []
    else if s[0].Pos? then [s[0].x] + Positions(s[1..])
    else Positions(s[1..])
  }

  /** The x values of the position slots, in order. */
  function SlotPositions(p: seq<Slot>): seq<real>
  {
    if |p| == 0 then []
    else if IsPos(p[0]) then [p[0].value.x] + SlotPositions(p[1..])
    else SlotPositions(p[1..])
  }

  function Xs(es: seq<Entry>): (xs: seq<real>)
    ensures |xs| == |es|
  {
    if |es| == 0 then [] else [es[0].x] + Xs(es[1..])
  }

  /** No position slot from `k` on has a position slot beside it. */
  predicate FlankedFrom(p: seq<Slot>, k: nat)
    requires PadShape(p)
  {
    forall i :: k <= i < |p| && IsPos(p[i]) ==> 0 < i < |p| - 1 && !IsPos(p[i - 1]) && !IsPos(p[i + 1])
  }

  /** The documented input shape: a non-empty sequence that starts and ends
      with a colour and never has two positions in a row. */
  predicate Flanked(s: seq<Item>)
  {
    && |s| > 0 && s[0].Color? && s[|s| - 1].Color?
    && forall j :: 0 <= j < |s| - 1 ==> s[j].Color? || s[j + 1].Color?
  }

  /** The entry the position slot `i` contributes to channel `c`. */
  function EntryAt(p: seq<Slot>, i: nat, c: Channel): Entry
    requires 0 < i < |p| - 1 && IsPos(p[i]) && !IsPos(p[i - 1]) && !IsPos(p[i + 1])
  {
    Entry(p[i].value.x, Component(p[i - 1], c), Component(p[i + 1], c))
  }

  // ------------------------------------------------------------ properties

  lemma {:induction false} PosCountSplit(p: seq<Slot>, i: nat)
    requires i < |p|
    ensures PosCount(p[i..]) == (if IsPos(p[i]) then 1 else 0) + PosCount(p[i + 1..])
  {
    assert p[i..][1..] == p[i + 1..];
  }

  /** The loop succeeds exactly when every position from `k` on is flanked. */
  lemma {:induction false} BuildSucceeds(p: seq<Slot>, k: nat)
    requires PadShape(p)
    ensures Build(p, k).Success? <==> FlankedFrom(p, k)
    decreases |p| - k
  {
    if k < |p| {
      BuildSucceeds(p, k + 1);
      if !IsPos(p[k]) {
        assert FlankedFrom(p, k) <==> FlankedFrom(p, k + 1);
      } else if IsPos(p[k - 1]) || IsPos(p[k + 1]) {
        assert !FlankedFrom(p, k);
      } else {
        assert FlankedFrom(p, k) <==> FlankedFrom(p, k + 1);
      }
    }
  }

  /** A successful loop from `k` gives every channel one entry per position
      slot from `k` on, in slot order: the position slot `i` lands at the
      number of positions between `k` and `i`, and carries the neighbouring
      slots' channel values. */
  lemma {:induction false} BuildEntries(p: seq<Slot>, k: nat, c: Channel)
    requires PadShape(p) && k <= |p|
    requires Build(p, k).Success?
    ensures var es := Of(Build(p, k).value, c);
      && |es| == PosCount(p[k..])
      && Xs(es) == SlotPositions(p[k..])
      && forall i :: k <= i < |p| && IsPos(p[i]) ==>
           && 0 < i < |p| - 1 && !IsPos(p[i - 1]) && !IsPos(p[i + 1])
           && PosCount(p[k..i]) < |es|
           && es[PosCount(p[k..i])] == EntryAt(p, i, c)
    decreases |p| - k
  {
    var es := Of(Build(p, k).value, c);
    if k == |p| {
      assert p[k..] == [];
    } else {
      BuildSucceeds(p, k);
      BuildEntries(p, k + 1, c);
      var rest := Of(Build(p, k + 1).value, c);
      PosCountSplit(p, k);
      assert p[k..][1..] == p[k + 1..];
      forall i | k < i < |p| && IsPos(p[i])
        ensures PosCount(p[k..i]) == (if IsPos(p[k]) then 1 else 0) + PosCount(p[k + 1..i])
      {
        assert p[k..i][1..] == p[k + 1..i];
      }
      assert p[k..k] == [];
      if IsPos(p[k]) {
        assert es == [EntryAt(p, k, c)] + rest;
        assert Xs(es) == [p[k].value.x] + Xs(rest);
      } else {
        assert es == rest;
      }
    }
  }

  /** Padding adds one position in front and one behind. */
  lemma PaddedCounts(s: seq<Item>, i: nat)
    requires i <= |s|
    ensures PosCount(Padded(s)[0..i + 2]) == 1 + |Positions(s[..i])|
  {
    var p := Padded(s);
    PosCountSlotsOf(s, i);
    assert p[0..i + 2] == [None, Some(Pos(0.0))] + p[2..i + 2];
    assert p[2..i + 2] == SlotsOf(s[..i]);
    PosCountConcat([None, Some(Pos(0.0))], p[2..i + 2]);
  }

  function SlotsOf(s: seq<Item>): (p: seq<Slot>)
    ensures |p| == |s|
    ensures forall i :: 0 <= i < |s| ==> p[i] == Some(s[i])
  {
    seq(|s|, i requires 0 <= i < |s| => Some(s[i]))
  }

  lemma {:induction false} PosCountConcat(a: seq<Slot>, b: seq<Slot>)
    ensures PosCount(a + b) == PosCount(a) + PosCount(b)
    ensures SlotPositions(a + b) == SlotPositions(a) + SlotPositions(b)
  {
    if |a| == 0 {
      assert a + b == b;
    } else {
      assert (a + b)[1..] == a[1..] + b;
      PosCountConcat(a[1..], b);
    }
  }

  /** Positions in the lifted items are exactly the input positions. */
  lemma {:induction false} PosCountSlotsOf(s: seq<Item>, i: nat)
    requires i <= |s|
    ensures PosCount(SlotsOf(s[..i])) == |Positions(s[..i])|
    ensures SlotPositions(SlotsOf(s[..i])) == Positions(s[..i])
    decreases i
  {
    if i > 0 {
      PosCountSlotsOf(s, i - 1);
      var a := SlotsOf(s[..i - 1]);
      assert SlotsOf(s[..i]) == a + [Some(s[i - 1])];
      PosCountConcat(a, [Some(s[i - 1])]);
      PositionsSnoc(s[..i - 1], s[i - 1]);
      assert s[..i - 1] + [s[i - 1]] == s[..i];
    } else {
      assert s[..0] == [];
    }
  }

  lemma {:induction false} PositionsSnoc(s: seq<Item>, item: Item)
    ensures Positions(s + [item]) == Positions(s) + (if item.Pos? then [item.x] else [])
  {
    if |s| == 0 {
      assert s + [item] == [item];
    } else {
      assert (s + [item])[1..] == s[1..] + [item];
      PositionsSnoc(s[1..], item);
    }
  }

  /** `make_colormap` raises exactly when the input is not a non-empty
      sequence that starts and ends with a colour and never has two
      positions in a row. */
  lemma MakeColormapSucceeds(s: seq<Item>)
    ensures MakeColormap(s).Success? <==> Flanked(s)
  {
    var p := Padded(s);
    BuildSucceeds(p, 0);
    if Flanked(s) {
      forall i | 0 <= i < |p| && IsPos(p[i])
        ensures 0 < i < |p| - 1 && !IsPos(p[i - 1]) && !IsPos(p[i + 1])
      {
        if 2 <= i < |s| + 2 {
          assert s[i - 2].Pos?;
          assert i - 2 != 0 && i - 2 != |s| - 1;
          assert !s[i - 3].Pos?;
          assert !s[i - 1].Pos?;
        }
      }
    } else if FlankedFrom(p, 0) {
      assert IsPos(p[1]);
      if |s| > 0 {
        assert IsPos(p[|s| + 2]);
        var j :| 0 <= j < |s| - 1 && !(s[j].Color? || s[j + 1].Color?);
        assert IsPos(p[j + 2]);
      }
    }
  }

  /** The padded sequence in its four parts, and what they count. */
  lemma PaddedParts(s: seq<Item>)
    ensures PosCount(Padded(s)) == |Positions(s)| + 2
    ensures SlotPositions(Padded(s)) == [0.0] + Positions(s) + [1.0]
  {
    var p := Padded(s);
    assert p == [None, Some(Pos(0.0))] + SlotsOf(s) + [Some(Pos(1.0)), None];
    PosCountConcat([None, Some(Pos(0.0))], SlotsOf(s));
    PosCountConcat([None, Some(Pos(0.0))] + SlotsOf(s), [Some(Pos(1.0)), None]);
    assert s[..|s|] == s;
    PosCountSlotsOf(s, |s|);
    assert SlotPositions([None, Some(Pos(0.0))]) == [0.0];
    assert SlotPositions([Some(Pos(1.0)), None]) == [1.0];
    assert PosCount([None, Some(Pos(0.0))]) == 1;
    assert PosCount([Some(Pos(1.0)), None]) == 1;
  }

  /** Every channel of a successful `make_colormap` has one entry per input
      position plus the two added ends, and its x values run 0.0, the input
      positions in order, 1.0. */
  lemma MakeColormapPositions(s: seq<Item>, c: Channel)
    requires MakeColormap(s).Success?
    ensures var es := Of(MakeColormap(s).value, c);
      && |es| == |Positions(s)| + 2
      && Xs(es) == [0.0] + Positions(s) + [1.0]
  {
    BuildEntries(Padded(s), 0, c);
    assert Padded(s)[0..] == Padded(s);
    PaddedParts(s);
  }

  /** The first entry of every channel is 0.0 with no left value and the
      first colour on its right; the last is 1.0 with the last colour on its
      left and no right value. */
  lemma MakeColormapEnds(s: seq<Item>, c: Channel)
    requires MakeColormap(s).Success?
    ensures Flanked(s)
    ensures var es := Of(MakeColormap(s).value, c);
      && |es| >= 2
      && es[0] == Entry(0.0, None, Some(Pick(s[0], c)))
      && es[|es| - 1] == Entry(1.0, Some(Pick(s[|s| - 1], c)), None)
  {
    MakeColormapSucceeds(s);
    var p := Padded(s);
    var es := Of(MakeColormap(s).value, c);
    BuildEntries(p, 0, c);
    assert p[0..] == p;
    PaddedParts(s);
    assert p[0..1] == [None];
    assert es[0] == EntryAt(p, 1, c);
    PaddedCounts(s, |s|);
    assert s[..|s|] == s;
    assert es[|es| - 1] == EntryAt(p, |s| + 2, c);
  }

  /** Every input position lies strictly inside the sequence between two
      colours, and its entry, after the leading 0.0 and the positions before
      it, carries the channel values of those two colours. */
  lemma MakeColormapInner(s: seq<Item>, c: Channel)
    requires MakeColormap(s).Success?
    ensures var es := Of(MakeColormap(s).value, c);
      forall i :: 0 <= i < |s| && s[i].Pos? ==>
        && 0 < i < |s| - 1 && s[i - 1].Color? && s[i + 1].Color?
        && 1 + |Positions(s[..i])| < |es|
        && es[1 + |Positions(s[..i])|] == Entry(s[i].x, Some(Pick(s[i - 1], c)), Some(Pick(s[i + 1], c)))
  {
    var p := Padded(s);
    var es := Of(MakeColormap(s).value, c);
    BuildEntries(p, 0, c);
    forall i | 0 <= i < |s| && s[i].Pos?
      ensures 0 < i < |s| - 1 && s[i - 1].Color? && s[i + 1].Color?
      ensures 1 + |Positions(s[..i])| < |es|
      ensures es[1 + |Positions(s[..i])|] == Entry(s[i].x, Some(Pick(s[i - 1], c)), Some(Pick(s[i + 1], c)))
    {
      assert IsPos(p[i + 2]);
      PaddedCounts(s, i);
      assert p[i + 1] == Some(s[i - 1]) && p[i + 3] == Some(s[i + 1]);
    }
  }
}
