/** The resolver's number helpers: `_parse_number`, `_invert_range` and the
    inference of a number option's step from its literals. */
module NumericHelpers {
  import opened PyValues
  import opened PyText
  import opened PyNumbers

  /** `_parse_number`: a literal with a decimal point is read by `float`, any
      other by `int`; a literal the reader rejects gives 0. */
  function ParseNumber(value: string): (r: PyValue)
    ensures r.Int? || r.Float?
    ensures r.Float? <==> '.' in value && IsFloatLiteral(value)
    ensures r.Float? ==> r.literal == value
  {
    if '.' in value then
      if IsFloatLiteral(value) then Float(value) else Int(0)
    else
      match ParseInt(value)
      case Some(n) => Int(n)
      case None => Int(0)
  }

  /** An integer's decimal rendering parses back to it. */
  lemma ParseNumberIntToString(n: int)
    ensures ParseNumber(IntToString(n)) == Int(n)
  {
    ParseIntToString(n);
  }

  /** `_invert_range` on integers: the reflection of `v` across the middle of
      `[lo, hi]`. */
  function Invert(lo: int, hi: int, v: int): (r: int)
    ensures r == lo + hi - v
    ensures lo <= v <= hi ==> lo <= r <= hi
  {
    var range := hi - lo;
    var off := v - lo;
    lo + (range - off)
  }

  /** Reflecting twice gives back the value. */
  lemma InvertTwice(lo: int, hi: int, v: int)
    ensures Invert(lo, hi, Invert(lo, hi, v)) == v
  {
  }

  /** `_invert_range` on the values the resolver passes: parsed bounds and a
      submitted or parsed value. A string or `None` cannot be subtracted; a
      `bool` counts as 0 or 1; float arithmetic is outside the model. */
  function InvertRange(lo: PyValue, hi: PyValue, v: PyValue): (r: Result<PyValue>)
    requires lo.Int? || lo.Float?
    requires hi.Int? || hi.Float?
    ensures v.Str? || v.Null? ==> r == Err(TypeError)
    ensures lo.Int? && hi.Int? && v.Int? ==> r == Ok(Int(lo.i + hi.i - v.i))
    ensures lo.Int? && hi.Int? && v.Bool? ==> r == Ok(Int(lo.i + hi.i - (if v.b then 1 else 0)))
    ensures r.Ok? ==> r.value.Int?
  {
    if v.Null? || v.Str? then Err(TypeError)
    else if lo.Float? || hi.Float? || v.Float? then Err(Unmodelled("float arithmetic"))
    else Ok(Int(Invert(lo.i, hi.i, if v.Int? then v.i else if v.b then 1 else 0)))
  }

  /** Inverting an inverted integer restores it, so a value written with
      `convert="invert"` reads back as itself. */
  lemma InvertRangeTwice(lo: PyValue, hi: PyValue, v: PyValue)
    requires lo.Int? || lo.Float?
    requires hi.Int? || hi.Float?
    requires v.Int? && InvertRange(lo, hi, v).Ok?
    ensures InvertRange(lo, hi, InvertRange(lo, hi, v).value) == Ok(v)
  {
    InvertTwice(lo.i, hi.i, v.i);
  }

  predicate AllZeros(s: string) {
    forall i :: 0 <= i < |s| ==> s[i] == '0'
  }

  /** The decimal places one of `@low`, `@high`, `@default` contributes to
      the step: none for a literal without a point or with an all-zero
      fraction; a literal with two points cannot be unpacked into whole and
      fraction and raises `ValueError`. */
  function Decimals(literal: string): (r: Result<Option<nat>>)
    ensures '.' !in literal ==> r == Ok(None)
    ensures r.Ok? && r.value.Some? ==> r.value.value >= 1
    ensures r.Err? ==> r == Err(ValueError)
  {
    if '.' !in literal then Ok(None)
    else
      var parts := Split(literal, '.');
      if |parts| != 2 then Err(ValueError)
      else
        var dec := parts[1];
        if AllZeros(dec) then Ok(None) else Ok(Some(|dec|))
  }

  /** A literal with one point contributes the length of its fraction, unless
      that fraction is all zeros. */
  lemma DecimalsOf(whole: string, dec: string)
    requires '.' !in whole && '.' !in dec
    ensures Decimals(whole + "." + dec) == if AllZeros(dec) then Ok(None) else Ok(Some(|dec|))
  {
    var literal := whole + "." + dec;
    assert literal[|whole|] == '.';
    SplitAfter(whole, '.', dec);
    SplitNone(dec, '.');
  }

  /** A literal with two points raises `ValueError`. */
  lemma DecimalsTwoPoints(a: string, b: string, c: string)
    requires '.' !in a && '.' !in b
    ensures Decimals(a + "." + b + "." + c) == Err(ValueError)
  {
    var literal := a + "." + b + "." + c;
    assert literal[|a|] == '.';
    assert literal == a + "." + (b + "." + c);
    SplitAfter(a, '.', b + "." + c);
    SplitAfter(b, '.', c);
  }

  /** The list `decs` the source collects: the contributions of the literals
      that contribute, in order. */
  function Contributions(literals: seq<string>): (r: Result<seq<nat>>)
    ensures r.Err? <==> exists i :: 0 <= i < |literals| && Decimals(literals[i]).Err?
    ensures r.Ok? ==> forall k :: k in r.value <==> exists i :: 0 <= i < |literals| && Decimals(literals[i]) == Ok(Some(k))
    ensures r.Ok? ==> forall k :: k in r.value ==> k >= 1
    ensures r.Err? ==> r == Err(ValueError)
    decreases |literals|
  {
    if literals == [] then Ok([])
    else
      var init := literals[..|literals| - 1];
      var last := literals[|literals| - 1];
      var decs :- Contributions(init);
      var d :- Decimals(last);
      assert forall i :: 0 <= i < |init| ==> init[i] == literals[i];
      Ok(if d.Some? then decs + [d.value] else decs)
  }

  /** `max(decs)`, taken as 0 when nothing contributes. */
  function MaxOf(s: seq<nat>): (m: nat)
    ensures forall k :: k in s ==> k <= m
    ensures s != [] ==> m in s
    ensures s == [] ==> m == 0
  {
    if s == [] then 0
    else
      var rest := MaxOf(s[1..]);
      assert forall k :: k in s ==> k == s[0] || k in s[1..];
      if s[0] >= rest then s[0] else rest
  }

  /** The step's decimal places: the largest contribution, 0 (step 1, an
      integral option) when no literal contributes. */
  function StepDecimals(literals: seq<string>): (r: Result<nat>)
    ensures r.Err? <==> exists i :: 0 <= i < |literals| && Decimals(literals[i]).Err?
    ensures r.Ok? ==> forall i, k :: 0 <= i < |literals| && Decimals(literals[i]) == Ok(Some(k)) ==> k <= r.value
    ensures r.Ok? && r.value > 0 ==> exists i :: 0 <= i < |literals| && Decimals(literals[i]) == Ok(Some(r.value))
    ensures r.Ok? ==> (r.value == 0 <==> forall i :: 0 <= i < |literals| ==> Decimals(literals[i]) == Ok(None))
    ensures r.Err? ==> r == Err(ValueError)
  {
    var decs :- Contributions(literals);
    var m := MaxOf(decs);
    assert m == 0 ==> forall i :: 0 <= i < |literals| ==> Decimals(literals[i]) == Ok(None) by {
      forall i | 0 <= i < |literals|
        ensures m == 0 ==> Decimals(literals[i]) == Ok(None)
      {
        var d := Decimals(literals[i]);
        if d.Ok? && d.value.Some? {
          assert d.value.value in decs;
        }
      }
    }
    Ok(m)
  }

  /** `"5.00"` contributes nothing, so an option with bounds `0`, `10` and
      default `5.00` is integral. */
  lemma StepIntegralExample()
    ensures StepDecimals(["0", "10", "5.00"]) == Ok(0)
  {
    DecimalsOf("5", "00");
    assert "5" + "." + "00" == "5.00";
    assert AllZeros("00");
    var a := ["0", "10", "5.00"];
    assert a[..1] == ["0"] && a[..2] == ["0", "10"] && a[..2][..1] == ["0"];
    assert ["0"][..0] == [];
    assert Contributions(["0"]) == Ok([]);
    assert Contributions(["0", "10"]) == Ok([]);
    assert Contributions(a) == Ok([]);
  }

  /** Bounds `0.5` and `10` with default `1.25` ask for two places. */
  lemma StepTwoPlacesExample()
    ensures StepDecimals(["0.5", "10", "1.25"]) == Ok(2)
  {
    ExampleDecimals();
    StepOfThree("0.5", "10", "1.25", 1, 2);
  }

  /** Three literals, the second integral: the step takes the larger count of
      places of the other two. */
  lemma StepOfThree(x: string, y: string, z: string, dx: nat, dz: nat)
    requires Decimals(x) == Ok(Some(dx)) && Decimals(y) == Ok(None) && Decimals(z) == Ok(Some(dz))
    requires dx <= dz
    ensures StepDecimals([x, y, z]) == Ok(dz)
  {
    var b := [x, y, z];
    assert b[0] == x && b[1] == y && b[2] == z;
    var r := StepDecimals(b);
    assert r.Ok? by {
      forall i | 0 <= i < |b| ensures Decimals(b[i]).Ok? {}
    }
    assert r.value >= dz by {
      assert Decimals(b[2]) == Ok(Some(dz));
    }
    var i :| 0 <= i < |b| && Decimals(b[i]) == Ok(Some(r.value));
  }

  /** The places each literal of the example contributes. */
  lemma ExampleDecimals()
    ensures Decimals("0.5") == Ok(Some(1))
    ensures Decimals("1.25") == Ok(Some(2))
    ensures Decimals("10") == Ok(None)
  {
    DecimalsOf("0", "5");
    assert "0" + "." + "5" == "0.5";
    assert !AllZeros("5") by { assert "5"[0] != '0'; }
    DecimalsOf("1", "25");
    assert "1" + "." + "25" == "1.25";
    assert !AllZeros("25") by { assert "25"[0] != '0'; }
  }

  /** The step inference of `_resolve_number`: every literal holding a point
      is split into whole and fraction, and the fraction's length is
      collected unless it is all zeros. */
  method InferStep(literals: seq<string>) returns (r: Result<nat>)
    ensures r == StepDecimals(literals)
  {
    var decs: seq<nat> := [];
    var i := 0;
    while i < |literals|
      invariant 0 <= i <= |literals|
      invariant Contributions(literals[..i]) == Ok(decs)
    {
      var d := Decimals(literals[i]);
      assert literals[..i + 1][..i] == literals[..i];
      if d.Err? {
        assert literals[..i + 1][i] == literals[i];
        return Err(ValueError);
      }
      if d.value.Some? {
        decs := decs + [d.value.value];
      }
      i := i + 1;
    }
    assert literals[..i] == literals;
    r := Ok(MaxOf(decs));
  }
}
