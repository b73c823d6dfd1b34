/**
 * A limb layer record (Layer2): name, height series, density and elastic
 * modulus, with field-wise equality and conversion to and from JSON.
 */
module Layer {
  import opened Errors

  /** A JSON document value. */
  datatype Json =
    | JNull
    | JBool(bool)
    | JNumber(num: real)
    | JString(str: string)
    | JArray(items: seq<Json>)
    | JObject(fields: map<string, Json>)

  /** A sampled function: argument values and the values at them. */
  datatype Series = Series(args: seq<real>, vals: seq<real>)

  datatype Layer2 = Layer2(name: string, height: Series, rho: real, E: real)

  /** A fresh layer as the struct's member initialisers define it. */
  function Default(): (v: Layer2)
    ensures v.name == "unnamed"
    ensures v.height.args == [0.0, 1.0] && v.height.vals == [0.0128, 0.008]
    ensures v.rho == 600.0 && v.E == 15_000_000_000.0
  {
    Layer2("unnamed", Series([0.0, 1.0], [0.0128, 0.008]), 600.0, 15e9)
  }

  /** Field-wise comparison (operator==). */
  function Equal(lhs: Layer2, rhs: Layer2): (b: bool)
    ensures b <==> lhs == rhs
  {
    && lhs.name == rhs.name
    && lhs.height == rhs.height
    && lhs.rho == rhs.rho
    && lhs.E == rhs.E
  }

  /** Equality of layers is an equivalence. */
  lemma EqualIsEquivalence(a: Layer2, b: Layer2, c: Layer2)
    ensures Equal(a, a)
    ensures Equal(a, b) <==> Equal(b, a)
    ensures Equal(a, b) && Equal(b, c) ==> Equal(a, c)
  {
  }

  // ---------------------------------------------------------------------
  // Series <-> JSON: a stand-in encoding, used only through its round trip
  // ---------------------------------------------------------------------

  function Numbers(xs: seq<real>): (j: seq<Json>)
    ensures |j| == |xs| && forall i :: 0 <= i < |xs| ==> j[i] == JNumber(xs[i])
  {
    seq(|xs|, i requires 0 <= i < |xs| => JNumber(xs[i]))
  }

  /** Reads an array of numbers; any other element is a type error. */
  function ReadNumbers(items: seq<Json>): (r: Result<seq<real>>)
    ensures r.Success? <==> forall i :: 0 <= i < |items| ==> items[i].JNumber?
    ensures r.Success? ==> Numbers(r.value) == items
    ensures r.Failure? ==> r.error == JsonTypeError
  {
    if |items| == 0 then Success([])
    else if !items[0].JNumber? then Failure(JsonTypeError)
    else
      var rest :- ReadNumbers(items[1..]);
      assert Numbers([items[0].num] + rest) == [items[0]] + items[1..];
      Success([items[0].num] + rest)
  }

  lemma {:induction false} ReadNumbersRoundTrip(xs: seq<real>)
    ensures ReadNumbers(Numbers(xs)) == Success(xs)
    decreases |xs|
  {
    if |xs| > 0 {
      assert Numbers(xs)[1..] == Numbers(xs[1..]);
      ReadNumbersRoundTrip(xs[1..]);
      assert [xs[0]] + xs[1..] == xs;
    }
  }

  function SeriesToJson(s: Series): Json {
    JArray([JArray(Numbers(s.args)), JArray(Numbers(s.vals))])
  }

  function SeriesFromJson(j: Json): (r: Result<Series>)
    ensures r.Success? ==> SeriesToJson(r.value) == j
  {
    if !j.JArray? || |j.items| != 2 || !j.items[0].JArray? || !j.items[1].JArray? then Failure(JsonTypeError)
    else
      var args :- ReadNumbers(j.items[0].items);
      var vals :- ReadNumbers(j.items[1].items);
      assert [JArray(Numbers(args)), JArray(Numbers(vals))] == j.items;
      Success(Series(args, vals))
  }

  lemma SeriesRoundTrip(s: Series)
    ensures SeriesFromJson(SeriesToJson(s)) == Success(s)
  {
    ReadNumbersRoundTrip(s.args);
    ReadNumbersRoundTrip(s.vals);
  }

  // ---------------------------------------------------------------------
  // Layer2 <-> JSON
  // ---------------------------------------------------------------------

  const Keys: set<string> := {"name", "height", "rho", "E"}

  /** The order in which from_json reads and converts the keys. */
  const ReadOrder: seq<string> := ["name", "height", "rho", "E"]

  /** Whether a value has the kind the field stored under `key` needs. */
  predicate Converts(key: string, v: Json) {
    if key == "name" then v.JString?
    else if key == "height" then SeriesFromJson(v).Success?
    else v.JNumber?
  }

  /** The key is present in the object and its value converts. */
  predicate Readable(j: Json, key: string)
    requires j.JObject?
  {
    key in j.fields && Converts(key, j.fields[key])
  }

  /** Some key is missing, and every key read before it is present and converts. */
  predicate FirstFaultIsMissing(j: Json)
    requires j.JObject?
  {
    exists i :: 0 <= i < |ReadOrder| && ReadOrder[i] !in j.fields &&
      forall m :: 0 <= m < i ==> Readable(j, ReadOrder[m])
  }

  /** FirstFaultIsMissing spelled out key by key, in read order. */
  lemma FirstMissingByKey(j: Json)
    ensures j.JObject? ==> (FirstFaultIsMissing(j)
      <==> || "name" !in j.fields
           || (Readable(j, "name") && "height" !in j.fields)
           || (Readable(j, "name") && Readable(j, "height") && "rho" !in j.fields)
           || (Readable(j, "name") && Readable(j, "height") && Readable(j, "rho") && "E" !in j.fields))
  {
    var o := ReadOrder;
    assert o[0] == "name" && o[1] == "height" && o[2] == "rho" && o[3] == "E";
  }

  /** to_json: an object with one entry per field. */
  function ToJson(v: Layer2): (j: Json)
    ensures j.JObject? && j.fields.Keys == Keys
    ensures j.fields["name"] == JString(v.name)
    ensures j.fields["rho"] == JNumber(v.rho) && j.fields["E"] == JNumber(v.E)
  {
    JObject(map["name" := JString(v.name), "height" := SeriesToJson(v.height),
                "rho" := JNumber(v.rho), "E" := JNumber(v.E)])
  }

  /** Reads one key of an object. */
  function Field(j: Json, key: string): (r: Result<Json>)
    ensures r.Success? <==> j.JObject? && key in j.fields
    ensures r.Success? ==> r.value == j.fields[key]
  {
    if !j.JObject? then Failure(JsonTypeError)
    else if key !in j.fields then Failure(JsonMissingKey)
    else Success(j.fields[key])
  }

  function AsString(j: Json): (r: Result<string>)
    ensures r.Success? <==> j.JString?
    ensures r.Success? ==> j == JString(r.value)
  {
    if j.JString? then Success(j.str) else Failure(JsonTypeError)
  }

  function AsNumber(j: Json): (r: Result<real>)
    ensures r.Success? <==> j.JNumber?
    ensures r.Success? ==> j == JNumber(r.value)
  {
    if j.JNumber? then Success(j.num) else Failure(JsonTypeError)
  }

  /**
   * from_json: reads the four keys to_json writes, converting each one before
   * the next is read, and sets every field from them. The first key that is
   * missing or of the wrong kind decides the error.
   */
  function FromJson(j: Json): (r: Result<Layer2>)
    ensures r.Success? <==>
      && j.JObject? && Keys <= j.fields.Keys
      && j.fields["name"].JString? && SeriesFromJson(j.fields["height"]).Success?
      && j.fields["rho"].JNumber? && j.fields["E"].JNumber?
    ensures r.Failure? && !j.JObject? ==> r.error == JsonTypeError
    ensures r.Failure? && j.JObject? ==>
      (r.error == JsonMissingKey <==> FirstFaultIsMissing(j))
    ensures r.Failure? && j.JObject? && Keys <= j.fields.Keys ==> r.error == JsonTypeError
    ensures r.Success? ==>
      && j.fields["name"] == JString(r.value.name)
      && j.fields["height"] == SeriesToJson(r.value.height)
      && j.fields["rho"] == JNumber(r.value.rho)
      && j.fields["E"] == JNumber(r.value.E)
  {
    FirstMissingByKey(j);
    var name :- Field(j, "name");
    var nameValue :- AsString(name);
    var height :- Field(j, "height");
    var heightValue :- SeriesFromJson(height);
    var rho :- Field(j, "rho");
    var rhoValue :- AsNumber(rho);
    var e :- Field(j, "E");
    var eValue :- AsNumber(e);
    Success(Layer2(nameValue, heightValue, rhoValue, eValue))
  }

  /** A mistyped "name" is reported before the missing "height" is ever read. */
  lemma MistypedNameComesFirst()
    ensures FromJson(JObject(map["name" := JNumber(1.0)])) == Failure(JsonTypeError)
  {
    FirstMissingByKey(JObject(map["name" := JNumber(1.0)]));
  }

  /** Writing a layer and reading it back gives the same layer. */
  lemma RoundTrip(v: Layer2)
    ensures FromJson(ToJson(v)) == Success(v)
  {
    SeriesRoundTrip(v.height);
  }

  /** Reading then writing keeps exactly the four keys that were read. */
  lemma WriteAfterRead(j: Json)
    requires FromJson(j).Success?
    ensures ToJson(FromJson(j).value) == JObject(map k | k in Keys :: j.fields[k])
  {
  }

  /** Only the four keys matter: objects that agree on them read the same. */
  lemma ReadsOnlyKeys(j: Json, j': Json)
    requires j.JObject? && j'.JObject?
    requires forall k :: k in Keys ==> (k in j.fields <==> k in j'.fields)
    requires forall k :: k in Keys && k in j.fields ==> j.fields[k] == j'.fields[k]
    ensures FromJson(j) == FromJson(j')
  {
    assert "name" in Keys && "height" in Keys && "rho" in Keys && "E" in Keys;
  }
}
