/** The `geometry` attribute of an image: its dimensions, then its channel count. */
module GeometryAttribute {
  import opened Primitives
  import opened Text
  import Locations

  function DecimalFields(values: seq<u64>): (fields: seq<string>)
    ensures |fields| == |values|
  {
    if values == [] then [] else [Decimal(values[0])] + DecimalFields(values[1..])
  }

  function GeometryText(dimensions: seq<u64>, channels: u64): string
  {
    Join(DecimalFields(dimensions + [channels]), ':')
  }

  method ParseFieldsInOrder(fields: seq<string>) returns (r: Result<seq<u64>>)
    ensures r == ParseNumbers(fields)
  {
    var values: seq<u64> := [];
    assert fields[0..] == fields;
    assert ParseNumbers(fields).Ok? ==> [] + ParseNumbers(fields).value == ParseNumbers(fields).value;
    for i := 0 to |fields|
      invariant ParseNumbers(fields) == (var rest :- ParseNumbers(fields[i..]); Ok(values + rest))
    {
      var value := ParseU64(fields[i]);
      if value.Err? {
        return Err(value.kind);
      }
      assert fields[i..][1..] == fields[i + 1..];
      ghost var rest := ParseNumbers(fields[i + 1..]);
      assert rest.Ok? ==> values + ([value.value] + rest.value) == values + [value.value] + rest.value;
      values := values + [value.value];
    }
    assert values + [] == values;
    return Ok(values);
  }

  function ParseNumbers(fields: seq<string>): (r: Result<seq<u64>>)
    ensures r.Ok? ==> |r.value| == |fields|
    ensures r.Err? ==> r.kind == BadAttribute
  {
    if fields == [] then Ok([])
    else
      var first :- ParseU64(fields[0]);
      var rest :- ParseNumbers(fields[1..]);
      Ok([first] + rest)
  }

  /** The dimensions and the channel count, the last field being the channels. */
  method ParseGeometry(text: string) returns (r: Result<(seq<u64>, u64)>)
    ensures r == Geometry(text)
  {
    var fields := Split(text, ':');
    if |fields| < 2 {
      return Err(BadAttribute);
    }
    var parsed := ParseFieldsInOrder(fields);
    if parsed.Err? {
      return Err(parsed.kind);
    }
    var channels := parsed.value[|parsed.value| - 1];
    var values := parsed.value[..|parsed.value| - 1];
    if channels == 0 {
      return Err(BadAttribute);
    }
    if 0 in values {
      return Err(BadAttribute);
    }
    return Ok((values, channels));
  }

  function Geometry(text: string): Result<(seq<u64>, u64)>
  {
    var fields := Split(text, ':');
    if |fields| < 2 then Err(BadAttribute)
    else
      var values :- ParseNumbers(fields);
      if 0 in values then Err(BadAttribute) else Ok((values[..|values| - 1], values[|values| - 1]))
  }

  lemma {:induction false} NumbersReadBack(values: seq<u64>)
    ensures ParseNumbers(DecimalFields(values)) == Ok(values)
    ensures forall f <- DecimalFields(values) :: ':' !in f
  {
    if values != [] {
      ParsePrintedU64(values[0]);
      Locations.DigitRunsAreTight(values[0], 10);
      NumbersReadBack(values[1..]);
      assert values == [values[0]] + values[1..];
    }
  }

  /** A geometry reads back as written exactly when it has a dimension and no field is zero. */
  lemma {:induction false} GeometryReadsBackExactly(dimensions: seq<u64>, channels: u64)
    ensures Geometry(GeometryText(dimensions, channels)) == Ok((dimensions, channels))
       <==> dimensions != [] && channels != 0 && 0 !in dimensions
    ensures Geometry(GeometryText(dimensions, channels)).Ok?
       <==> dimensions != [] && channels != 0 && 0 !in dimensions
  {
    var values := dimensions + [channels];
    NumbersReadBack(values);
    SplitJoin(DecimalFields(values), ':');
    assert values[..|values| - 1] == dimensions;
  }
}
