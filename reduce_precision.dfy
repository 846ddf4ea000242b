/** reduce_precision.py: rounding every float of a JSON document to a
    number of significant digits while keeping the document's shape. */
module ReducePrecision {
  import opened Records

  /** A decoded JSON value. Objects keep their keys in document order, as
      Python dicts do. */
  datatype Json =
    | JNull
    | JBool(b: bool)
    | JInt(i: int)
    | JFloat(f: real)
    | JString(s: string)
    | JArray(items: seq<Json>)
    | JObject(fields: seq<Field>)

  datatype Field = Field(key: string, value: Json)

  /** The two library calls the rounding makes: `math.floor(math.log10(x))`
      and the built-in `round(x, n)`. */
  datatype Rounding = Rounding(floorLog10: real -> int, roundTo: (real, int) -> real)

  function Abs(x: real): (r: real)
    ensures r >= 0.0 && (r == x || r == -x)
  {
    if x < 0.0 then -x else x
  }

  /** `round_to_significant_digits`: zero comes back as the integer 0;
      any other number as the float `round(|num|, power)` carrying the
      sign of `num`, where `power = sig_digits - floor(log10(|num|)) - 1`. */
  function RoundSignificant(num: real, sigDigits: int, rd: Rounding): (r: Json)
    ensures num == 0.0 <==> r == JInt(0)
    ensures num != 0.0 ==>
      (r.JFloat?
       && var rounded := rd.roundTo(Abs(num), sigDigits - rd.floorLog10(Abs(num)) - 1);
          (num > 0.0 ==> r.f == rounded) && (num < 0.0 ==> r.f == -rounded))
  {
    if num == 0.0 then JInt(0)
    else
      var sign := if num < 0.0 then -1.0 else 1.0;
      var magnitude := Abs(num);
      var power := sigDigits - rd.floorLog10(magnitude) - 1;
      JFloat(sign * rd.roundTo(magnitude, power))
  }

  /** The arithmetic negation of a number. */
  function Negated(j: Json): Json {
    match j
    case JInt(i) => JInt(-i)
    case JFloat(f) => JFloat(-f)
    case _ => j
  }

  /** The rounding is odd: a negative number rounds to the negation of its
      magnitude's rounding. */
  lemma RoundingIsOdd(num: real, sigDigits: int, rd: Rounding)
    ensures RoundSignificant(-num, sigDigits, rd) == Negated(RoundSignificant(num, sigDigits, rd))
  {
    assert Abs(-num) == Abs(num);
  }

  /** `process_data_structure`: objects and lists are rebuilt element by
      element, floats are rounded, and every other value is returned as it
      is. */
  function Process(data: Json, sigDigits: int, rd: Rounding): (r: Json)
    ensures Skeleton(r) == Skeleton(data)
    ensures !HasFloat(data) ==> r == data
    decreases data
  {
    match data
    case JObject(fields) =>
      var processed := seq(|fields|, k requires 0 <= k < |fields| =>
        Field(fields[k].key, Process(fields[k].value, sigDigits, rd)));
      assert forall k :: 0 <= k < |fields| ==> Skeleton(processed[k].value) == Skeleton(fields[k].value);
      assert !HasFloat(data) ==> forall k :: 0 <= k < |fields| ==> processed[k] == fields[k];
      assert Skeleton(JObject(processed)).fields == Skeleton(data).fields;
      JObject(processed)
    case JArray(items) =>
      var processed := seq(|items|, k requires 0 <= k < |items| => Process(items[k], sigDigits, rd));
      assert forall k :: 0 <= k < |items| ==> Skeleton(processed[k]) == Skeleton(items[k]);
      assert !HasFloat(data) ==> forall k :: 0 <= k < |items| ==> processed[k] == items[k];
      assert Skeleton(JArray(processed)).items == Skeleton(data).items;
      JArray(processed)
    case JFloat(f) => RoundSignificant(f, sigDigits, rd)
    case _ => data
  }

  // ---------------------------------------------------------------------
  // The document's shape, and navigation into it

  /** The document with every number replaced by 0: its shape, keys,
      strings, booleans and nulls. */
  function Skeleton(j: Json): Json
    decreases j
  {
    match j
    case JInt(_) => JInt(0)
    case JFloat(_) => JInt(0)
    case JArray(items) => JArray(seq(|items|, k requires 0 <= k < |items| => Skeleton(items[k])))
    case JObject(fields) =>
      JObject(seq(|fields|, k requires 0 <= k < |fields| => Field(fields[k].key, Skeleton(fields[k].value))))
    case _ => j
  }

  /** A float occurs at some depth. */
  predicate HasFloat(j: Json)
    decreases j
  {
    match j
    case JFloat(_) => true
    case JArray(items) => exists k :: 0 <= k < |items| && HasFloat(items[k])
    case JObject(fields) => exists k :: 0 <= k < |fields| && HasFloat(fields[k].value)
    case _ => false
  }

  /** One step into a document: a dict key or a list index. */
  datatype Step = Key(name: string) | Index(n: nat)

  function Keys(fields: seq<Field>): (ks: seq<string>)
    ensures |ks| == |fields| && forall k :: 0 <= k < |fields| ==> ks[k] == fields[k].key
  {
    seq(|fields|, k requires 0 <= k < |fields| => fields[k].key)
  }

  /** The first position of `key`. */
  function Position(keys: seq<string>, key: string): (r: Option<nat>)
    ensures r.Some? ==> r.value < |keys| && keys[r.value] == key
    ensures r.None? ==> key !in keys
  {
    if |keys| == 0 then None
    else if keys[0] == key then Some(0)
    else match Position(keys[1..], key)
      case None => None
      case Some(k) => Some(k + 1)
  }

  /** The value at the end of `path`, if every step exists. */
  function At(j: Json, path: seq<Step>): Option<Json>
    decreases |path|
  {
    if |path| == 0 then Some(j)
    else if j.JArray? && path[0].Index? then
      var n := path[0].n;
      if n < |j.items| then At(j.items[n], path[1..]) else None
    else if j.JObject? && path[0].Key? then
      match Position(Keys(j.fields), path[0].name)
      case None => None
      case Some(k) => At(j.fields[k].value, path[1..])
    else None
  }

  /** Processing commutes with navigation: whatever sits at a path of the
      processed document is the processed value at that path of the
      original, and no path appears or disappears. */
  lemma {:induction false} ProcessCommutesWithAt(j: Json, path: seq<Step>, sigDigits: int, rd: Rounding)
    ensures At(Process(j, sigDigits, rd), path) ==
      match At(j, path)
      case None => None
      case Some(v) => Some(Process(v, sigDigits, rd))
    decreases |path|
  {
    if |path| > 0 {
      var p := Process(j, sigDigits, rd);
      if j.JArray? && path[0].Index? && path[0].n < |j.items| {
        ProcessCommutesWithAt(j.items[path[0].n], path[1..], sigDigits, rd);
      } else if j.JObject? && path[0].Key? {
        assert Keys(p.fields) == Keys(j.fields);
        match Position(Keys(j.fields), path[0].name)
        case None =>
        case Some(k) =>
          ProcessCommutesWithAt(j.fields[k].value, path[1..], sigDigits, rd);
      }
    }
  }

  /** Every float at any depth becomes its own rounding, with the same
      number of digits; ints, strings, booleans and nulls stay as they
      are. */
  lemma LeavesAfterProcessing(j: Json, path: seq<Step>, sigDigits: int, rd: Rounding)
    ensures (forall f :: At(j, path) == Some(JFloat(f)) ==>
               At(Process(j, sigDigits, rd), path) == Some(RoundSignificant(f, sigDigits, rd)))
    ensures At(j, path).Some? && !At(j, path).value.JFloat? && !At(j, path).value.JArray?
              && !At(j, path).value.JObject? ==>
            At(Process(j, sigDigits, rd), path) == At(j, path)
  {
    ProcessCommutesWithAt(j, path, sigDigits, rd);
  }
}
