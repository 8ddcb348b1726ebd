/** The colour helpers of utils.py: luminance of a "#RRGGBB" colour and the
    choice of the lighter of the user's two colours, plus the stroke/fill
    normalisation the activity performs at start-up. Luminance is kept as
    ten times the source's weighted sum, 3R + 6G + B, so that it stays an
    integer. */
module Colors {
  import opened Outcomes
  import opened Text

  /** Ten times `_luminance(color)`: the red, green and blue fields are
      `color[1:3]`, `color[3:5]` and `color[5:7]` read as base-16 integers;
      a field `int(.., 16)` rejects makes the call raise (`None`). */
  function Luminance(color: string): (r: Option<int>)
    ensures r.Some? <==>
      IntBase16(Slice(color, 1, 3)).Some? && IntBase16(Slice(color, 3, 5)).Some? && IntBase16(Slice(color, 5, 7)).Some?
    ensures r.Some? ==> |color| >= 6
  {
    var red := IntBase16(Slice(color, 1, 3));
    var green := IntBase16(Slice(color, 3, 5));
    var blue := IntBase16(Slice(color, 5, 7));
    if red.Some? && green.Some? && blue.Some? then
      Some(3 * red.value + 6 * green.value + blue.value)
    else None
  }

  /** A colour in the "#RRGGBB" form the user profile supplies. */
  predicate IsHexColor(color: string)
  {
    |color| == 7 && color[0] == '#' && forall k :: 1 <= k < 7 ==> IsHexDigit(color[k])
  }

  /** The byte spelled by the two hex digits at `k` and `k + 1`. */
  function Channel(color: string, k: nat): nat
    requires IsHexColor(color) && 1 <= k <= 5
  {
    16 * HexValue(color[k]) + HexValue(color[k + 1])
  }

  /** On a "#RRGGBB" colour the luminance is the weighted sum of its three
      bytes, so it lies in [0, 2550] (ten times [0, 255]). */
  lemma LuminanceOfHexColor(color: string)
    requires IsHexColor(color)
    ensures Luminance(color) == Some(3 * Channel(color, 1) + 6 * Channel(color, 3) + Channel(color, 5))
    ensures 0 <= Luminance(color).value <= 2550
  {
    forall k | 1 <= k <= 5 ensures IntBase16(color[k..k + 2]) == Some(Channel(color, k)) {
      assert color[k..k + 2] == [color[k], color[k + 1]];
      HexPair(color[k..k + 2]);
    }
    assert Slice(color, 1, 3) == color[1..3];
    assert Slice(color, 3, 5) == color[3..5];
    assert Slice(color, 5, 7) == color[5..7];
  }

  /** A short colour such as "#abc" leaves the blue field empty, and
      `int('', 16)` raises. */
  lemma ShortColorRejected(color: string)
    requires |color| <= 5
    ensures Luminance(color) == None
  {
    assert Slice(color, 5, 7) == "";
  }

  /** `lighter_color(colors)`: 0 when the first colour is strictly lighter,
      1 otherwise. Python evaluates `colors[0]`, its luminance, then
      `colors[1]` and its luminance, so the exception raised depends on
      which of these fails first. */
  function LighterColor(colors: seq<string>): (r: Result<nat>)
    ensures r.Ok? <==> |colors| >= 2 && Luminance(colors[0]).Some? && Luminance(colors[1]).Some?
    ensures r.Ok? ==> (r.value == 0 <==> Luminance(colors[0]).value > Luminance(colors[1]).value)
    ensures r.Ok? ==> r.value <= 1
    ensures |colors| == 0 ==> r == Err(IndexError)
    ensures |colors| >= 1 && Luminance(colors[0]).None? ==> r == Err(ValueError)
    ensures |colors| == 1 && Luminance(colors[0]).Some? ==> r == Err(IndexError)
    ensures |colors| >= 2 && Luminance(colors[0]).Some? && Luminance(colors[1]).None? ==> r == Err(ValueError)
  {
    if |colors| == 0 then Err(IndexError)
    else
      var first := Luminance(colors[0]);
      if first.None? then Err(ValueError)
      else if |colors| == 1 then Err(IndexError)
      else
        var second := Luminance(colors[1]);
        if second.None? then Err(ValueError)
        else if first.value > second.value then Ok(0)
        else Ok(1)
  }

  /** Equal luminances pick the second colour. */
  lemma LighterColorTie(colors: seq<string>)
    ensures |colors| >= 2 && Luminance(colors[0]).Some? && Luminance(colors[0]) == Luminance(colors[1]) ==>
      LighterColor(colors) == Ok(1)
  {
  }

  function SwapPair(colors: seq<string>): (s: seq<string>)
    requires |colors| >= 2
    ensures |s| == |colors| && s[0] == colors[1] && s[1] == colors[0]
  {
    colors[0 := colors[1]][1 := colors[0]]
  }

  /** Exchanging the two colours flips the answer unless they are equally
      light. */
  lemma LighterColorSwap(colors: seq<string>, swapped: seq<string>)
    requires LighterColor(colors).Ok?
    requires |swapped| >= 2 && swapped[0] == colors[1] && swapped[1] == colors[0]
    requires Luminance(colors[0]) != Luminance(colors[1])
    ensures LighterColor(swapped).Ok?
    ensures LighterColor(swapped).value == 1 - LighterColor(colors).value
  {
  }

  /** The start-up normalisation (BBoardActivity.py:170-173): when the first
      colour is the lighter one, the two are exchanged. */
  function NormaliseColors(colors: seq<string>): (r: Result<seq<string>>)
    ensures r.Ok? <==> LighterColor(colors).Ok?
    ensures r.Err? ==> r.error == LighterColor(colors).error
    ensures r.Ok? ==> r.value == colors || r.value == SwapPair(colors)
    ensures r.Ok? ==> Luminance(r.value[0]).Some? && Luminance(r.value[1]).Some?
    ensures r.Ok? ==> Luminance(r.value[0]).value <= Luminance(r.value[1]).value
    ensures r.Ok? && LighterColor(colors).value == 1 ==> r.value == colors
  {
    var k := LighterColor(colors);
    if k.Err? then Err(k.error)
    else if k.value == 0 then
      var s := SwapPair(colors);
      var a, b := Luminance(colors[0]), Luminance(colors[1]);
      assert Luminance(s[0]) == b && Luminance(s[1]) == a;
      Ok(s)
    else Ok(colors)
  }

  /** The normalisation only reorders the first two colours. */
  lemma NormalisePermutes(colors: seq<string>)
    requires NormaliseColors(colors).Ok?
    ensures |NormaliseColors(colors).value| == |colors|
    ensures NormaliseColors(colors).value[2..] == colors[2..]
    ensures multiset(NormaliseColors(colors).value) == multiset(colors)
  {
    var r := NormaliseColors(colors).value;
    if r != colors {
      assert r == [colors[1], colors[0]] + colors[2..];
      assert colors == [colors[0], colors[1]] + colors[2..];
    }
  }

  /** Normalising an already normalised pair changes nothing. */
  lemma NormaliseIdempotent(colors: seq<string>)
    requires NormaliseColors(colors).Ok?
    ensures NormaliseColors(NormaliseColors(colors).value) == NormaliseColors(colors)
  {
    var once := NormaliseColors(colors).value;
    assert LighterColor(once) == Ok(1);
  }
}
