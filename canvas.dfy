/** The interval canvas of barcode.go: an image of fixed size whose black pixels are
    the columns covered by a list of half-open intervals ("modules"). */
module Canvas {

  /** Two-valued pixel colour; the concrete RGBA values are not modelled. */
  datatype Color = Black | White

  /** A black bar covering the pixel columns [begin, end) over the whole height. */
  datatype Module = Module(begin: int, end: int)

  /** image.Rectangle: the minimum corner (minX, minY) and the maximum corner (maxX, maxY). */
  datatype Rect = Rect(minX: int, minY: int, maxX: int, maxY: int)

  /** The three reasons AddModule refuses an interval, in the order it tests them. */
  datatype RangeError = BeginNotBelowWidth | EndNotBelowWidth | BeginNotBelowEnd

  datatype Option<T> = None | Some(value: T)

  /** The validation done by AddModule before it appends an interval. */
  function RangeCheck(width: int, begin: int, end: int): (e: Option<RangeError>)
    ensures e == None <==> begin < end < width
    ensures e == Some(BeginNotBelowWidth) <==> begin >= width
    ensures e == Some(EndNotBelowWidth) <==> begin < width <= end
  {
    if begin >= width then Some(BeginNotBelowWidth)
    else if end >= width then Some(EndNotBelowWidth)
    else if begin >= end then Some(BeginNotBelowEnd)
    else None
  }

  /** An interval that AddModule keeps on a canvas of the given width. */
  predicate Accepts(width: int, m: Module) {
    RangeCheck(width, m.begin, m.end) == None
  }

  /** The invariant of every canvas: each stored interval passed RangeCheck. */
  predicate AllAccepted(width: int, mods: seq<Module>) {
    forall i :: 0 <= i < |mods| ==> Accepts(width, mods[i])
  }

  /** The intervals that survive when `reqs` are handed to AddModule one after another:
      the rejected ones are dropped and the order of the others is kept. */
  function Accepted(width: int, reqs: seq<Module>): seq<Module>
  {
    if reqs == [] then []
    else
      var k := |reqs| - 1;
      Accepted(width, reqs[..k]) + (if Accepts(width, reqs[k]) then [reqs[k]] else [])
  }

  /** What survives is never more than what was requested, and passes RangeCheck. */
  lemma {:induction false} AcceptedValid(width: int, reqs: seq<Module>)
    ensures |Accepted(width, reqs)| <= |reqs|
    ensures AllAccepted(width, Accepted(width, reqs))
    decreases |reqs|
  {
    if reqs != [] {
      var k := |reqs| - 1;
      AcceptedValid(width, reqs[..k]);
    }
  }

  /** The surviving intervals are exactly the requested ones that pass RangeCheck. */
  lemma {:induction false} AcceptedMember(width: int, reqs: seq<Module>, m: Module)
    ensures m in Accepted(width, reqs) <==> m in reqs && Accepts(width, m)
    decreases |reqs|
  {
    if reqs != [] {
      var k := |reqs| - 1;
      AcceptedMember(width, reqs[..k], m);
      assert reqs == reqs[..k] + [reqs[k]];
    }
  }

  lemma {:induction false} AcceptedConcat(width: int, a: seq<Module>, b: seq<Module>)
    ensures Accepted(width, a + b) == Accepted(width, a) + Accepted(width, b)
    decreases |b|
  {
    if b == [] {
      assert a + b == a;
    } else {
      var k := |b| - 1;
      var last := if Accepts(width, b[k]) then [b[k]] else [];
      AcceptedConcat(width, a, b[..k]);
      assert (a + b)[..|a + b| - 1] == a + b[..k];
      assert (a + b)[|a + b| - 1] == b[k];
      assert Accepted(width, a + b) == Accepted(width, a + b[..k]) + last;
      assert Accepted(width, b) == Accepted(width, b[..k]) + last;
    }
  }

  lemma AppendEmpty(a: seq<Module>)
    ensures a + [] == a
  {
  }

  lemma AppendAssoc(a: seq<Module>, b: seq<Module>, c: seq<Module>)
    ensures a + (b + c) == (a + b) + c
  {
  }

  /** Moving the first part of what is still to come onto what is already there. */
  lemma ShiftPart(before: seq<Module>, whole: seq<Module>, part: seq<Module>, rest: seq<Module>, goal: seq<Module>)
    requires whole == part + rest
    requires before + whole == goal
    ensures (before + part) + rest == goal
  {
    AppendAssoc(before, part, rest);
  }

  /** Requests that all pass RangeCheck reach the canvas unchanged. */
  lemma {:induction false} AcceptedAll(width: int, reqs: seq<Module>)
    requires AllAccepted(width, reqs)
    ensures Accepted(width, reqs) == reqs
    decreases |reqs|
  {
    if reqs != [] {
      var k := |reqs| - 1;
      AcceptedAll(width, reqs[..k]);
      assert reqs[..k] + [reqs[k]] == reqs;
    }
  }

  /** Pixel column x is covered by some recorded interval. */
  predicate Covers(mods: seq<Module>, x: int) {
    exists i :: 0 <= i < |mods| && mods[i].begin <= x < mods[i].end
  }

  /** The colour At reports for column x. */
  function ColorOf(mods: seq<Module>, x: int): Color {
    if Covers(mods, x) then Black else White
  }

  /** Appending an interval blackens exactly its own columns and leaves every other
      column as it was. */
  lemma CoversAppend(mods: seq<Module>, m: Module, x: int)
    ensures Covers(mods + [m], x) <==> Covers(mods, x) || m.begin <= x < m.end
  {
    var all := mods + [m];
    if Covers(mods, x) {
      var i :| 0 <= i < |mods| && mods[i].begin <= x < mods[i].end;
      assert all[i] == mods[i];
    }
    if m.begin <= x < m.end {
      assert all[|mods|] == m;
    }
  }

  /** Adding intervals never turns a black pixel white. */
  lemma CoversMonotone(mods: seq<Module>, more: seq<Module>, x: int)
    requires Covers(mods, x)
    ensures Covers(mods + more, x)
  {
    var i :| 0 <= i < |mods| && mods[i].begin <= x < mods[i].end;
    assert (mods + more)[i] == mods[i];
  }

  /** image.Rect: the rectangle with the given corners, swapped where needed so that
      the minimum corner is not greater than the maximum one. */
  function ImageRect(x0: int, y0: int, x1: int, y1: int): (r: Rect)
    ensures r.minX <= r.maxX && r.minY <= r.maxY
    ensures (r.minX, r.maxX) == (x0, x1) || (r.minX, r.maxX) == (x1, x0)
    ensures (r.minY, r.maxY) == (y0, y1) || (r.minY, r.maxY) == (y1, y0)
  {
    var (loX, hiX) := if x0 > x1 then (x1, x0) else (x0, x1);
    var (loY, hiY) := if y0 > y1 then (y1, y0) else (y0, y1);
    Rect(loX, loY, hiX, hiY)
  }

  /** The canvas of barcode.go. The size is fixed at construction; only the list of
      intervals grows. */
  class Barcode {
    const width: int
    const height: int
    var modules: seq<Module>

    ghost predicate Valid()
      reads this
    {
      AllAccepted(width, modules)
    }

    /** barcode.New: an empty canvas of the given size; no validation. */
    constructor (width: int, height: int)
      ensures Valid()
      ensures this.width == width && this.height == height
      ensures modules == []
    {
      this.width := width;
      this.height := height;
      modules := [];
    }

    /** Validates [begin, end) and appends it; on an error nothing changes. */
    method AddModule(begin: int, end: int) returns (err: Option<RangeError>)
      requires Valid()
      modifies this
      ensures Valid()
      ensures err == RangeCheck(width, begin, end)
      ensures modules == if err == None then old(modules) + [Module(begin, end)] else old(modules)
    {
      if begin >= width {
        return Some(BeginNotBelowWidth);
      }
      if end >= width {
        return Some(EndNotBelowWidth);
      }
      if begin >= end {
        return Some(BeginNotBelowEnd);
      }
      modules := modules + [Module(begin, end)];
      return None;
    }

    /** The colour of pixel (x, y): black iff x lies in a recorded interval. y is
        ignored and no coordinate is bounds-checked. */
    method At(x: int, y: int) returns (c: Color)
      ensures c == ColorOf(modules, x)
      ensures c == Black <==> exists i :: 0 <= i < |modules| && modules[i].begin <= x < modules[i].end
    {
      for i := 0 to |modules|
        invariant forall j :: 0 <= j < i ==> !(modules[j].begin <= x < modules[j].end)
      {
        var m := modules[i];
        if m.begin <= x && x < m.end {
          return Black;
        }
      }
      return White;
    }

    /** The image bounds: always the rectangle from (0, 0) to (width, height). */
    function Bounds(): (r: Rect)
      reads this
      ensures width >= 0 && height >= 0 ==> r == Rect(0, 0, width, height)
      ensures r.minX <= r.maxX && r.minY <= r.maxY
    {
      ImageRect(0, 0, width, height)
    }
  }

  /** The scenario of TestAt in barcode_test.go: bars [0,26) and [51,78) on a 100x100
      canvas, and the colours of five pixels. */
  method ScenarioAt() returns (c00: Color, c05: Color, c60: Color, c26: Color, cFar: Color)
    ensures c00 == Black && c05 == Black && c60 == Black
    ensures c26 == White && cFar == White
  {
    var b := new Barcode(100, 100);
    var e1 := b.AddModule(0, 26);
    var e2 := b.AddModule(51, 78);
    assert b.modules == [Module(0, 26), Module(51, 78)];
    assert b.modules[1].begin <= 60 < b.modules[1].end;
    c00 := b.At(0, 0);
    c05 := b.At(0, 5);
    c60 := b.At(60, 1000);
    c26 := b.At(26, 5);
    cFar := b.At(1000, 1000);
  }

  /** The scenario of TestAddModule in barcode_test.go on a width-100 canvas. */
  method ScenarioAddModule() returns (ok: Option<RangeError>, beyond: Option<RangeError>, reversed: Option<RangeError>)
    ensures ok == None
    ensures beyond == Some(EndNotBelowWidth)
    ensures reversed == Some(BeginNotBelowEnd)
  {
    var b := new Barcode(100, 100);
    ok := b.AddModule(10, 20);
    beyond := b.AddModule(99, 102);
    reversed := b.AddModule(66, 55);
  }

  /** The scenario of TestBound in barcode_test.go. */
  method ScenarioBounds() returns (r: Rect)
    ensures r == Rect(0, 0, 100, 100)
  {
    var b := new Barcode(100, 100);
    r := b.Bounds();
  }
}
