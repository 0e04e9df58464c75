/**
 * The LED controller of rpi_controller.py over the mock `PixelStrip`
 * buffer: run-length expansion of a light pattern into the pixels.
 */
module RpiController {
  import opened LightPatterns

  const Black := Rgb(0, 0, 0)

  /** The number of LEDs a run-length pattern asks for. */
  function TotalCount(ls: seq<Light>): nat {
    if ls == [] then 0 else ls[0].count + TotalCount(ls[1..])
  }

  /** `count` copies of one colour. */
  function Repeat(c: Rgb, count: nat): (r: seq<Rgb>)
    ensures |r| == count && forall k :: 0 <= k < count ==> r[k] == c
  {
    seq(count, _ => c)
  }

  /** The pixels a pattern stands for: each run's colour `count` times, runs in order. */
  function Expand(ls: seq<Light>): (r: seq<Rgb>)
    ensures |r| == TotalCount(ls)
  {
    if ls == [] then [] else Repeat(ls[0].color, ls[0].count) + Expand(ls[1..])
  }

  lemma {:induction false} TotalCountConcat(a: seq<Light>, b: seq<Light>)
    ensures TotalCount(a + b) == TotalCount(a) + TotalCount(b)
  {
    if a == [] {
      assert a + b == b;
    } else {
      assert (a + b)[1..] == a[1..] + b;
      TotalCountConcat(a[1..], b);
    }
  }

  /** Expanding two patterns one after the other is expanding their concatenation. */
  lemma {:induction false} ExpandConcat(a: seq<Light>, b: seq<Light>)
    ensures Expand(a + b) == Expand(a) + Expand(b)
  {
    if a == [] {
      assert a + b == b;
    } else {
      assert (a + b)[1..] == a[1..] + b;
      ExpandConcat(a[1..], b);
    }
  }

  /** The lights before run `j` add up to at most the whole pattern, less run `j`. */
  lemma PrefixCount(ls: seq<Light>, j: int)
    requires 0 <= j < |ls|
    ensures TotalCount(ls[..j + 1]) == TotalCount(ls[..j]) + ls[j].count
    ensures TotalCount(ls[..j]) + ls[j].count <= TotalCount(ls)
  {
    assert ls[..j + 1] == ls[..j] + [ls[j]];
    TotalCountConcat(ls[..j], [ls[j]]);
    assert [ls[j]][1..] == [];
    assert ls == ls[..j + 1] + ls[j + 1..];
    TotalCountConcat(ls[..j + 1], ls[j + 1..]);
  }

  /** Position `k` of run `j` is expanded to run `j`'s colour. */
  lemma ExpandRun(ls: seq<Light>, j: int, k: int)
    requires 0 <= j < |ls| && 0 <= k < ls[j].count
    ensures TotalCount(ls[..j]) + k < TotalCount(ls)
    ensures Expand(ls)[TotalCount(ls[..j]) + k] == ls[j].color
  {
    PrefixCount(ls, j);
    var front, back := ls[..j], ls[j..];
    assert ls == front + back;
    ExpandConcat(front, back);
    assert back[0] == ls[j];
    var run := Repeat(ls[j].color, ls[j].count);
    assert Expand(back) == run + Expand(back[1..]);
    assert Expand(back)[k] == run[k];
    assert Expand(ls)[|Expand(front)| + k] == Expand(back)[k];
  }

  /**
   * Run-length expansion: every expanded position `k` lies in the
   * cumulative count range of exactly the run whose colour it gets.
   */
  lemma {:induction false} ExpandAt(ls: seq<Light>, k: int)
    requires 0 <= k < TotalCount(ls)
    ensures exists j :: 0 <= j < |ls| && TotalCount(ls[..j]) <= k < TotalCount(ls[..j]) + ls[j].count &&
                        Expand(ls)[k] == ls[j].color
  {
    if k < ls[0].count {
      assert ls[..0] == [];
      ExpandRun(ls, 0, k);
    } else {
      ExpandAt(ls[1..], k - ls[0].count);
      var j' :| 0 <= j' < |ls[1..]| && TotalCount(ls[1..][..j']) <= k - ls[0].count < TotalCount(ls[1..][..j']) + ls[1..][j'].count;
      assert ls[..j' + 1] == [ls[0]] + ls[1..][..j'];
      assert ([ls[0]] + ls[1..][..j'])[1..] == ls[1..][..j'];
      ExpandRun(ls, j' + 1, k - TotalCount(ls[..j' + 1]));
    }
  }

  /** The runs with a count above zero. */
  function NonEmptyRuns(ls: seq<Light>): (r: seq<Light>)
    ensures forall l :: l in r ==> l in ls && l.count > 0
    ensures forall l :: l in ls && l.count > 0 ==> l in r
  {
    if ls == [] then []
    else if ls[0].count == 0 then NonEmptyRuns(ls[1..])
    else [ls[0]] + NonEmptyRuns(ls[1..])
  }

  /** Runs of count zero produce no pixels. */
  lemma {:induction false} EmptyRunsVanish(ls: seq<Light>)
    ensures Expand(NonEmptyRuns(ls)) == Expand(ls)
  {
    if ls != [] {
      EmptyRunsVanish(ls[1..]);
      if ls[0].count == 0 {
        assert Repeat(ls[0].color, 0) == [];
      } else {
        assert ([ls[0]] + NonEmptyRuns(ls[1..]))[1..] == NonEmptyRuns(ls[1..]);
      }
    }
  }

  /** `len(_pixels)` of the mock, `len([c] * num)`: the larger of `num` and 0. */
  function Width(num: int): (n: nat)
    ensures n >= num && (n == num || n == 0)
  {
    if num < 0 then 0 else num
  }

  /** A buffer of `n` black pixels. */
  function Blank(n: nat): (r: seq<Rgb>)
    ensures |r| == n && forall i :: 0 <= i < n ==> r[i] == Black
  {
    seq(n, _ => Black)
  }

  /**
   * The buffer `send_pattern` leaves behind: pixels below `offset` keep
   * their colour, the pixel `offset + k` gets position `k` of the expanded
   * pattern, and every pixel after the pattern is black.
   */
  function Render(before: seq<Rgb>, run: seq<Rgb>, offset: int): (r: seq<Rgb>)
    ensures |r| == |before|
  {
    seq(|before|, i requires 0 <= i < |before| =>
      if i < offset then before[i]
      else if i - offset < |run| then run[i - offset]
      else Black)
  }

  /** Pixels below the offset are never changed. */
  lemma RenderKeepsBelowOffset(before: seq<Rgb>, ls: seq<Light>, offset: int, i: int)
    requires 0 <= i < |before| && i < offset
    ensures Render(before, Expand(ls), offset)[i] == before[i]
  {
  }

  /**
   * For a non-negative offset, the pixel `offset + k` inside both the strip
   * and the pattern gets the colour of the run whose count range covers `k`.
   */
  lemma RenderExpansion(before: seq<Rgb>, ls: seq<Light>, offset: int, k: int)
    requires 0 <= offset && 0 <= k && offset + k < |before| && k < TotalCount(ls)
    ensures exists j :: 0 <= j < |ls| && TotalCount(ls[..j]) <= k < TotalCount(ls[..j]) + ls[j].count &&
                        Render(before, Expand(ls), offset)[offset + k] == ls[j].color
  {
    ExpandAt(ls, k);
  }

  /** Every pixel from the end of the pattern to the end of the strip is black. */
  lemma RenderTailBlack(before: seq<Rgb>, ls: seq<Light>, offset: int, i: int)
    requires 0 <= i < |before| && offset + TotalCount(ls) <= i
    ensures Render(before, Expand(ls), offset)[i] == Black
  {
  }

  /** An offset at or past the end of the strip leaves the buffer unchanged. */
  lemma RenderOffsetPastEnd(before: seq<Rgb>, ls: seq<Light>, offset: int)
    requires offset >= |before|
    ensures Render(before, Expand(ls), offset) == before
  {
  }

  /** Sending an empty pattern at offset 0 gives the same buffer as `clear`. */
  lemma EmptyPatternClears(before: seq<Rgb>)
    ensures Render(before, Expand([]), 0) == Blank(|before|)
  {
  }

  /** Sending the same pattern at the same offset twice is the same as once. */
  lemma RenderIdempotent(before: seq<Rgb>, ls: seq<Light>, offset: int)
    ensures Render(Render(before, Expand(ls), offset), Expand(ls), offset) == Render(before, Expand(ls), offset)
  {
  }

  /** The module's demonstration: red 3, green 2, blue 1 on an 8-pixel strip leaves two black pixels. */
  lemma DemoPattern()
    ensures var red, green, blue := Rgb(255, 0, 0), Rgb(0, 255, 0), Rgb(0, 0, 255);
            Render(Blank(8), Expand([Light(red, 3), Light(green, 2), Light(blue, 1)]), 0)
            == [red, red, red, green, green, blue, Black, Black]
  {
    var red, green, blue := Rgb(255, 0, 0), Rgb(0, 255, 0), Rgb(0, 0, 255);
    var ls := [Light(red, 3), Light(green, 2), Light(blue, 1)];
    assert ls[1..] == [Light(green, 2), Light(blue, 1)];
    assert ls[1..][1..] == [Light(blue, 1)];
    assert ls[1..][1..][1..] == [];
    assert Repeat(blue, 1) == [blue];
    assert Repeat(green, 2) == [green, green];
    assert Repeat(red, 3) == [red, red, red];
    assert Expand(ls[1..][1..]) == [blue];
    assert Expand(ls[1..]) == [green, green, blue];
    assert Expand(ls) == [red, red, red, green, green, blue];
  }

  /** The mock `PixelStrip`. Its `_pixels` list is the array `pixels`. */
  class PixelStrip {
    const num: int
    const pin: int
    const brightness: int
    const pixels: array<Rgb>

    predicate Valid() {
      pixels.Length == Width(num)
    }

    /** `PixelStrip(num, pin, brightness=...)`: `num` black pixels. */
    constructor (num: int, pin: int, brightness: int := 255)
      ensures Valid() && fresh(pixels)
      ensures this.num == num && this.pin == pin && this.brightness == brightness
      ensures pixels[..] == Blank(Width(num))
    {
      this.num := num;
      this.pin := pin;
      this.brightness := brightness;
      pixels := new Rgb[Width(num)](_ => Black);
    }

    /** `setPixelColor`: changes pixel `i` alone when it is on the strip, and nothing otherwise. */
    method SetPixelColor(i: int, c: Rgb)
      requires Valid()
      modifies pixels
      ensures pixels[..] == Put(old(pixels[..]), i, c)
    {
      if 0 <= i < num {
        pixels[i] := c;
      }
    }

    /** `numPixels`. */
    function NumPixels(): (n: int)
      requires Valid()
      ensures n == num && Width(n) == pixels.Length
    {
      num
    }
  }

  /**
   * `cur` after `setPixelColor(i, c)` on a buffer of its length: pixel `i`
   * becomes `c` when it is on the strip, and every other pixel is unchanged.
   */
  function Put(cur: seq<Rgb>, i: int, c: Rgb): (r: seq<Rgb>)
    ensures |r| == |cur|
    ensures 0 <= i < |cur| ==> r[i] == c
    ensures forall k :: 0 <= k < |cur| && k != i ==> r[k] == cur[k]
  {
    if 0 <= i < |cur| then cur[i := c] else cur
  }

  /**
   * The state of the buffer part-way through `send_pattern`: pixels from
   * `offset` up to `idx` hold the expanded pattern, all others are as before.
   */
  ghost predicate Painted(cur: seq<Rgb>, before: seq<Rgb>, run: seq<Rgb>, offset: int, idx: int) {
    && |cur| == |before|
    && offset <= idx <= offset + |run|
    && forall i :: 0 <= i < |cur| ==> cur[i] == if offset <= i < idx then run[i - offset] else before[i]
  }

  lemma PaintStep(cur: seq<Rgb>, before: seq<Rgb>, run: seq<Rgb>, offset: int, idx: int)
    requires Painted(cur, before, run, offset, idx) && idx < offset + |run|
    ensures Painted(Put(cur, idx, run[idx - offset]), before, run, offset, idx + 1)
  {
  }

  /** Painting position `k` of run `j` of `ls` extends the painted part by one pixel. */
  lemma PaintRunStep(cur: seq<Rgb>, before: seq<Rgb>, ls: seq<Light>, offset: int, j: int, k: int)
    requires 0 <= j < |ls| && 0 <= k < ls[j].count
    requires Painted(cur, before, Expand(ls), offset, offset + TotalCount(ls[..j]) + k)
    ensures Painted(Put(cur, offset + TotalCount(ls[..j]) + k, ls[j].color), before, Expand(ls), offset,
                    offset + TotalCount(ls[..j]) + k + 1)
  {
    ExpandRun(ls, j, k);
    PaintStep(cur, before, Expand(ls), offset, offset + TotalCount(ls[..j]) + k);
  }

  /**
   * The state of the buffer while `send_pattern` blacks out the tail: the
   * pattern from `offset` up to `mid`, black from `mid` up to `idx`.
   */
  ghost predicate Blanking(cur: seq<Rgb>, before: seq<Rgb>, run: seq<Rgb>, offset: int, mid: int, idx: int) {
    && |cur| == |before|
    && offset <= mid <= idx && mid <= offset + |run|
    && (0 < |cur| && mid < |cur| ==> mid == offset + |run|)
    && forall i :: 0 <= i < |cur| ==>
         cur[i] == if offset <= i < mid then run[i - offset] else if mid <= i < idx then Black else before[i]
  }

  lemma BlankStep(cur: seq<Rgb>, before: seq<Rgb>, run: seq<Rgb>, offset: int, mid: int, idx: int)
    requires Blanking(cur, before, run, offset, mid, idx)
    ensures Blanking(Put(cur, idx, Black), before, run, offset, mid, idx + 1)
  {
  }

  lemma BlankDone(cur: seq<Rgb>, before: seq<Rgb>, run: seq<Rgb>, offset: int, mid: int, idx: int)
    requires Blanking(cur, before, run, offset, mid, idx) && (idx >= |cur| || |cur| == 0)
    ensures cur == Render(before, run, offset)
  {
    assert forall i :: 0 <= i < |cur| ==> cur[i] == Render(before, run, offset)[i];
  }

  /** `LEDController`, driving the strip it creates. */
  class LEDController {
    const numPixels: int
    const pin: int
    const brightness: int
    const channel: int
    const strip: PixelStrip

    predicate Valid() {
      strip.num == numPixels && strip.Valid()
    }

    /** `LEDController(num_pixels, pin=18, brightness=255, channel=0)`: a strip with every pixel black. */
    constructor (numPixels: int, pin: int := 18, brightness: int := 255, channel: int := 0)
      ensures Valid() && fresh(strip) && fresh(strip.pixels)
      ensures this.numPixels == numPixels && this.pin == pin
      ensures this.brightness == brightness && this.channel == channel
      ensures strip.pixels[..] == Blank(Width(numPixels))
    {
      this.numPixels := numPixels;
      this.pin := pin;
      this.brightness := brightness;
      this.channel := channel;
      strip := new PixelStrip(numPixels, pin, brightness);
    }

    /** `send_pattern(pattern, offset)`: the buffer becomes `Render` of the old buffer. */
    method SendPattern(pattern: LightPattern, offset: int := 0)
      requires Valid()
      modifies strip.pixels
      ensures strip.pixels[..] == Render(old(strip.pixels[..]), Expand(pattern.lights), offset)
    {
      ghost var before := strip.pixels[..];
      var lights := pattern.AsList();
      ghost var run := Expand(lights);
      var idx := offset;
      var j := 0;
      while j < |lights|
        invariant 0 <= j <= |lights|
        invariant idx == offset + TotalCount(lights[..j])
        invariant Painted(strip.pixels[..], before, run, offset, idx)
      {
        var light := lights[j];
        PrefixCount(lights, j);
        var k := 0;
        while k < light.count
          invariant 0 <= k <= light.count
          invariant idx == offset + TotalCount(lights[..j]) + k
          invariant Painted(strip.pixels[..], before, run, offset, idx)
        {
          if idx >= numPixels {
            break;
          }
          PaintRunStep(strip.pixels[..], before, lights, offset, j, k);
          strip.SetPixelColor(idx, light.color);
          idx := idx + 1;
          k := k + 1;
        }
        if idx >= numPixels {
          break;
        }
        j := j + 1;
      }
      assert lights[..|lights|] == lights;
      assert idx >= numPixels || idx == offset + |run|;

      // black out every pixel from `mid` to the end of the strip
      ghost var mid := idx;
      while idx < numPixels
        invariant Blanking(strip.pixels[..], before, run, offset, mid, idx)
      {
        BlankStep(strip.pixels[..], before, run, offset, mid, idx);
        strip.SetPixelColor(idx, Black);
        idx := idx + 1;
      }
      BlankDone(strip.pixels[..], before, run, offset, mid, idx);
    }

    /** `clear`: every pixel black. */
    method Clear()
      requires Valid()
      modifies strip.pixels
      ensures strip.pixels[..] == Blank(strip.pixels.Length)
    {
      var i := 0;
      while i < numPixels
        invariant 0 <= i
        invariant i <= Width(numPixels)
        invariant forall k :: 0 <= k < strip.pixels.Length ==>
          strip.pixels[k] == if k < i then Black else old(strip.pixels[k])
      {
        strip.SetPixelColor(i, Black);
        i := i + 1;
      }
    }

    /** `close`: clears the strip. */
    method Close()
      requires Valid()
      modifies strip.pixels
      ensures strip.pixels[..] == Blank(strip.pixels.Length)
    {
      Clear();
    }
  }
}
