/** Colours, lights and the ordered light container of LightPattern.py. */
module LightPatterns {
  import opened Wrappers

  /** One colour channel of an RGB triple. */
  type Channel = x: int | 0 <= x <= 255

  /** A validated RGB colour. */
  datatype Rgb = Rgb(r: Channel, g: Channel, b: Channel) {
    /** The colour as the (r, g, b) sequence of its components. */
    function AsSeq(): (s: seq<int>)
      ensures |s| == 3
    {
      [r, g, b]
    }
  }

  const White := Rgb(255, 255, 255)

  const ColorMessage := "color must be an RGB tuple (r, g, b) with 0-255 ints"
  const CountMessage := "count must be non-negative"

  /** What `_validate_rgb` accepts: exactly three components, each in 0..255. */
  predicate IsRgb(value: seq<int>) {
    |value| == 3 && forall i :: 0 <= i < |value| ==> 0 <= value[i] <= 255
  }

  /**
   * `_validate_rgb`: the value is accepted if and only if it is an RGB
   * triple, and then the colour has the same components in the same order;
   * otherwise the source raises a TypeError.
   */
  function ValidateRgb(value: seq<int>): (r: Result<Rgb>)
    ensures r.Success? <==> IsRgb(value)
    ensures r.Success? ==> r.value.AsSeq() == value
    ensures r.Failure? ==> r.error == TypeError(ColorMessage)
  {
    if |value| == 3 && 0 <= value[0] <= 255 && 0 <= value[1] <= 255 && 0 <= value[2] <= 255
    then Success(Rgb(value[0], value[1], value[2]))
    else Failure(TypeError(ColorMessage))
  }

  /** Every colour passes validation unchanged. */
  lemma ValidateRgbRoundTrip(c: Rgb)
    ensures ValidateRgb(c.AsSeq()) == Success(c)
  {
  }

  /** A run of `count` LEDs of one colour; `count` is never negative. */
  datatype Light = Light(color: Rgb := White, count: nat := 1)

  /**
   * Building a `Light(color, count)` from unchecked data: the colour is
   * validated first (TypeError), then `__post_init__` rejects a negative
   * count (ValueError); a count of zero is allowed.
   */
  function MakeLight(color: seq<int> := [255, 255, 255], count: int := 1): (r: Result<Light>)
    ensures r.Success? <==> IsRgb(color) && count >= 0
    ensures r.Success? ==> r.value.color.AsSeq() == color && r.value.count == count
    ensures !IsRgb(color) ==> r == Failure(TypeError(ColorMessage))
    ensures IsRgb(color) && count < 0 ==> r == Failure(ValueError(CountMessage))
  {
    match ValidateRgb(color)
    case Failure(e) => Failure(e)
    case Success(c) =>
      if count < 0 then Failure(ValueError(CountMessage)) else Success(Light(c, count))
  }

  /** The defaults: one white LED, and they pass validation. */
  lemma DefaultLight()
    ensures MakeLight() == Success(Light())
    ensures Light() == Light(Rgb(255, 255, 255), 1)
  {
    ValidateRgbRoundTrip(White);
  }

  /** An existing light rebuilt from its own fields is itself. */
  lemma MakeLightRoundTrip(l: Light)
    ensures MakeLight(l.color.AsSeq(), l.count) == Success(l)
  {
    ValidateRgbRoundTrip(l.color);
  }

  /** The ordered container `LightPattern`, whose `_lights` list is updated in place. */
  class LightPattern {
    var lights: seq<Light>

    /** Copies each given light, in order, through `AddLight`. */
    constructor (init: seq<Light> := [])
      ensures lights == init
    {
      lights := [];
      new;
      var i := 0;
      while i < |init|
        invariant 0 <= i <= |init|
        invariant lights == init[..i]
      {
        MakeLightRoundTrip(init[i]);
        var added := AddLight(init[i].color.AsSeq(), init[i].count);
        assert init[..i + 1] == init[..i] + [init[i]];
        i := i + 1;
      }
    }

    /**
     * `add_light(color, count)`: appends the validated light, or leaves the
     * pattern unchanged and reports the error the source would raise.
     */
    method AddLight(color: seq<int>, count: int) returns (r: Result<Light>)
      modifies this
      ensures r == MakeLight(color, count)
      ensures lights == if r.Success? then old(lights) + [r.value] else old(lights)
    {
      r := MakeLight(color, count);
      if r.Success? {
        lights := lights + [r.value];
      }
    }

    /** `as_list`: a new list holding the same lights, in stored order. */
    method AsList() returns (r: seq<Light>)
      ensures r == lights
    {
      r := lights;
    }

    /** `clear`: removes every light. */
    method Clear()
      modifies this
      ensures lights == []
    {
      lights := [];
    }

    /** `__iter__`: the lights in stored order. */
    function Iter(): (r: seq<Light>)
      reads this
      ensures |r| == Len() && forall k :: 0 <= k < |r| ==> r[k] == lights[k]
    {
      lights
    }

    /** `__len__`: the number of stored lights. */
    function Len(): (n: nat)
      reads this
      ensures n == |lights|
    {
      |lights|
    }
  }

  /** A pattern built with no lights is empty, and building from lights keeps them in order. */
  method ConstructedPatterns(ls: seq<Light>) returns (empty: nat, kept: seq<Light>)
    ensures empty == 0
    ensures kept == ls
  {
    var p := new LightPattern();
    empty := p.Len();
    var q := new LightPattern(ls);
    kept := q.AsList();
  }
}
