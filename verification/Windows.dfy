/** Comparison windows: a range split into contiguous half-open slices. */
module Windows {
  import opened Arithmetic

  datatype Window = Window(begin: int, end: int, index: nat)

  /** Contiguous, numbered windows from begin to until. */
  ghost predicate Tiles(ws: seq<Window>, begin: int, until: int) {
    && ws != [] && ws[0].begin == begin && ws[|ws| - 1].end == until
    && (forall i :: 0 <= i < |ws| ==> ws[i].index == i && ws[i].begin <= ws[i].end)
    && (forall i, j :: 0 <= i < |ws| && j == i + 1 < |ws| ==> ws[i].end == ws[j].begin)
  }

  ghost predicate Holds(ws: seq<Window>, i: int, t: int) {
    0 <= i < |ws| && ws[i].begin <= t < ws[i].end
  }

  lemma {:induction false} TilesAscend(ws: seq<Window>, begin: int, until: int, i: nat, j: nat)
    requires Tiles(ws, begin, until) && i <= j < |ws|
    ensures ws[i].begin <= ws[j].begin && ws[i].end <= ws[j].end && (i < j ==> ws[i].end <= ws[j].begin)
    decreases j - i
  {
    if i < j {
      TilesAscend(ws, begin, until, i, j - 1);
    }
  }

  /** Every instant of the range lies in exactly one window, and no other instant in any. */
  lemma TilesExactly(ws: seq<Window>, begin: int, until: int, t: int)
    requires Tiles(ws, begin, until)
    ensures (exists i :: Holds(ws, i, t)) <==> begin <= t < until
    ensures forall i, j :: Holds(ws, i, t) && Holds(ws, j, t) ==> i == j
  {
    forall i | Holds(ws, i, t) ensures begin <= t < until {
      TilesAscend(ws, begin, until, 0, i);
      TilesAscend(ws, begin, until, i, |ws| - 1);
    }
    forall i, j | Holds(ws, i, t) && Holds(ws, j, t) ensures i == j {
      if i < j {
        TilesAscend(ws, begin, until, i, j);
      } else if j < i {
        TilesAscend(ws, begin, until, j, i);
      }
    }
    if begin <= t < until {
      var i := Reaching(ws, begin, until, t, |ws| - 1);
      assert Holds(ws, i, t);
    }
  }

  /** The last window up to n that begins at or before t. */
  lemma {:induction false} Reaching(ws: seq<Window>, begin: int, until: int, t: int, n: nat) returns (i: nat)
    requires Tiles(ws, begin, until) && n < |ws| && begin <= t < ws[n].end
    ensures Holds(ws, i, t)
  {
    if ws[n].begin <= t {
      i := n;
    } else {
      assert n > 0;
      assert ws[n - 1].end == ws[n].begin;
      i := Reaching(ws, begin, until, t, n - 1);
    }
  }

  /** The windows of a fixed step; the last one covers the remainder. */
  function PartitionOf(begin: int, until: int, step: int, index: nat): seq<Window>
    requires step > 0
    decreases until - begin
  {
    if begin >= until then []
    else [Window(begin, if begin + step > until then until else begin + step, index)] + PartitionOf(begin + step, until, step, index + 1)
  }

  method Partition(begin: int, until: int, step: int) returns (windows: seq<Window>)
    requires step > 0
    ensures windows == PartitionOf(begin, until, step, 0)
  {
    windows := [];
    var index, start := 0, begin;
    while start < until
      invariant |windows| == index
      invariant windows + PartitionOf(start, until, step, index) == PartitionOf(begin, until, step, 0)
      decreases until - start
    {
      var end := start + step;
      if end > until {
        end := until;
      }
      windows := windows + [Window(start, end, index)];
      index, start := index + 1, start + step;
    }
  }

  /** Window i starts i steps in and is cut at the end of the range; there are as many as the range needs. */
  lemma {:induction false} PartitionWindow(begin: int, until: int, step: int, index: nat, i: nat)
    requires step > 0
    ensures i < |PartitionOf(begin, until, step, index)| <==> begin + i * step < until
    ensures i < |PartitionOf(begin, until, step, index)| ==>
              PartitionOf(begin, until, step, index)[i] ==
              Window(begin + i * step, if begin + i * step + step > until then until else begin + i * step + step, index + i)
    decreases i
  {
    if i > 0 {
      assert i * step == (i - 1) * step + step;
      PartitionWindow(begin + step, until, step, index + 1, i - 1);
    } else {
      assert i * step == 0;
    }
    if begin >= until {
      assert i * step >= 0;
    }
  }

  /** Partition tiles every non-empty range. */
  lemma PartitionTiles(begin: int, until: int, step: int)
    requires step > 0 && begin < until
    ensures Tiles(PartitionOf(begin, until, step, 0), begin, until)
  {
    var ws := PartitionOf(begin, until, step, 0);
    forall i | 0 <= i < |ws|
      ensures ws[i].index == i && ws[i].begin <= ws[i].end && (i + 1 < |ws| ==> ws[i].end == ws[i + 1].begin)
    {
      PartitionWindow(begin, until, step, 0, i);
      PartitionWindow(begin, until, step, 0, i + 1);
      assert (i + 1) * step == i * step + step;
    }
    PartitionWindow(begin, until, step, 0, 0);
    assert 0 * step == 0;
    var n := |ws| - 1;
    PartitionWindow(begin, until, step, 0, n);
    PartitionWindow(begin, until, step, 0, n + 1);
    assert (n + 1) * step == n * step + step;
  }

  /** The windows between consecutive bounds. */
  function Between(bounds: seq<int>): seq<Window>
    requires bounds != []
  {
    seq(|bounds| - 1, i requires 0 <= i < |bounds| - 1 => Window(bounds[i], bounds[i + 1], i))
  }

  lemma BetweenAt(bounds: seq<int>, i: nat)
    requires i + 1 < |bounds|
    ensures |Between(bounds)| == |bounds| - 1 && Between(bounds)[i] == Window(bounds[i], bounds[i + 1], i)
  {
  }

  lemma BetweenTiles(bounds: seq<int>)
    requires |bounds| > 1
    requires forall i, j :: 0 <= i < |bounds| && j == i + 1 < |bounds| ==> bounds[i] <= bounds[j]
    ensures Tiles(Between(bounds), bounds[0], bounds[|bounds| - 1])
  {
  }
}
