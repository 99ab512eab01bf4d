/**
  toSerializableObject and fromSerializableObject: JavaScript values as JSON-shaped values, with
  tagged objects for what JSON cannot say, and back.
 */
module Serializable {
  import opened LittleEndian
  import opened Text
  import opened Wrappers

  datatype Js =
    | Undefined
    | Null
    | Bool(b: bool)
    | Num(n: int)
    | Str(s: string)
    | BigInt(v: int)
    | Bytes(data: seq<Byte>)
    | Date(time: int)
    | JsSet(members: seq<Js>)
    | JsMap(pairs: seq<Pair>)
    | Arr(items: seq<Js>)
    | Obj(fields: seq<Field>)

  datatype Pair = Pair(key: Js, value: Js)
  datatype Field = Field(name: string, value: Js)

  /** transformationTypeKey, serializeKey and deserializeKey */
  datatype Options = Options(typeKey: string, serializeKey: string -> string, deserializeKey: string -> string)

  /** Deserialization gives a value, throws, or builds something this model does not cover. */
  datatype Outcome<T> = Value(value: T) | Throws | Outside {
    function Map<U>(f: T -> U): (r: Outcome<U>)
      ensures Value? <==> r.Value?
    {
      match this
      case Value(v) => Value(f(v))
      case Throws => Throws
      case Outside => Outside
    }
  }

  const TAGS: set<string> := {"undefined", "bigint", "Buffer", "Date", "Set", "Map", "Error"}

  // ---------------------------------------------------------------- objects, sets and maps

  function Names(fs: seq<Field>): seq<string> {
    seq(|fs|, i requires 0 <= i < |fs| => fs[i].name)
  }

  /** result[name] = value: overwrites in place, or adds at the end. */
  function Assign(fs: seq<Field>, name: string, value: Js): (r: seq<Field>)
    ensures name !in Names(fs) ==> r == fs + [Field(name, value)]
  {
    if fs == [] then [Field(name, value)]
    else if fs[0].name == name then assert Names(fs)[0] == name; [Field(name, value)] + fs[1..]
    else
      assert name !in Names(fs) ==> name !in Names(fs[1..]) by {
        assert Names(fs)[1..] == Names(fs[1..]);
      }
      [fs[0]] + Assign(fs[1..], name, value)
  }

  /** The index of the field called name, |fs| when there is none. */
  function Find(fs: seq<Field>, name: string): (r: nat)
    ensures r <= |fs|
    ensures r < |fs| ==> fs[r].name == name
    ensures forall i :: 0 <= i < r ==> fs[i].name != name
  {
    if fs == [] then 0
    else if fs[0].name == name then 0
    else
      var r := Find(fs[1..], name);
      assert forall i :: 1 <= i < |fs| ==> fs[i] == fs[1..][i - 1];
      1 + r
  }

  /** obj[name] is one of the seven tag strings */
  predicate HasTag(fs: seq<Field>, name: string) {
    var i := Find(fs, name);
    i < |fs| && fs[i].value.Str? && fs[i].value.s in TAGS
  }

  /** Values that a Set or a Map compares by value; all others are distinct objects. */
  predicate IsPrimitive(v: Js) {
    v.Undefined? || v.Null? || v.Bool? || v.Num? || v.Str? || v.BigInt?
  }

  /** new Set(items) */
  function MakeSet(items: seq<Js>): (r: seq<Js>)
    ensures |r| <= |items| && (|r| == |items| ==> r == items)
  {
    if items == [] then []
    else
      var front, last := MakeSet(items[..|items| - 1]), items[|items| - 1];
      assert items == items[..|items| - 1] + [last];
      if IsPrimitive(last) && last in front then front else front + [last]
  }

  function Put(ps: seq<Pair>, p: Pair): (r: seq<Pair>)
    ensures |ps| <= |r| <= |ps| + 1 && (|r| == |ps| + 1 ==> r == ps + [p])
    ensures !(exists i :: 0 <= i < |ps| && IsPrimitive(p.key) && ps[i].key == p.key) ==> r == ps + [p]
  {
    if ps == [] then [p]
    else if IsPrimitive(p.key) && ps[0].key == p.key then [p] + ps[1..]
    else
      assert (exists i :: 0 <= i < |ps[1..]| && IsPrimitive(p.key) && ps[1..][i].key == p.key)
          ==> exists i :: 0 <= i < |ps| && IsPrimitive(p.key) && ps[i].key == p.key by {
        if i :| 0 <= i < |ps[1..]| && IsPrimitive(p.key) && ps[1..][i].key == p.key {
          assert ps[i + 1].key == p.key;
        }
      }
      [ps[0]] + Put(ps[1..], p)
  }

  /** A Set keeps the first of equal primitives and every object, in their order. */
  lemma {:induction false} SetMembers(items: seq<Js>)
    ensures forall v :: v in MakeSet(items) <==> v in items
    ensures forall i, j :: 0 <= i < j < |MakeSet(items)| && IsPrimitive(MakeSet(items)[j]) ==>
      MakeSet(items)[i] != MakeSet(items)[j]
  {
    if items != [] {
      var n := |items| - 1;
      SetMembers(items[..n]);
      assert items == items[..n] + [items[n]];
    }
  }

  /** new Map(pairs) */
  function MakeMap(pairs: seq<Pair>): (r: seq<Pair>)
    ensures |r| <= |pairs| && (|r| == |pairs| ==> r == pairs)
  {
    if pairs == [] then []
    else
      assert pairs == pairs[..|pairs| - 1] + [pairs[|pairs| - 1]];
      Put(MakeMap(pairs[..|pairs| - 1]), pairs[|pairs| - 1])
  }

  // ---------------------------------------------------------------- the codec

  /** { [typeKey]: tag, value }: with 'value' as the type key the payload overwrites the tag. */
  function Tagged(o: Options, tag: string, payload: Js): Js {
    Obj(Assign([Field(o.typeKey, Str(tag))], "value", payload))
  }

  function To(v: Js, o: Options): Js
    decreases v, 1
  {
    match v
    case Undefined => Obj([Field(o.typeKey, Str("undefined"))])
    case Null => Null
    case Bool(_) => v
    case Num(_) => v
    case Str(_) => v
    case BigInt(n) => Tagged(o, "bigint", Str(IntToString(n)))
    case Bytes(data) => Tagged(o, "Buffer", Str(BytesToHex(data)))
    case Date(time) => Tagged(o, "Date", Num(time))
    case JsSet(members) => Tagged(o, "Set", Arr(ToAll(members, o)))
    case JsMap(pairs) => Tagged(o, "Map", Arr(ToPairs(pairs, o)))
    case Arr(items) => Arr(ToAll(items, o))
    case Obj(fields) => Obj(ToFields(fields, o))
  }

  function ToAll(vs: seq<Js>, o: Options): (r: seq<Js>)
    ensures |r| == |vs|
    decreases vs, 0
  {
    if vs == [] then [] else ToAll(vs[..|vs| - 1], o) + [To(vs[|vs| - 1], o)]
  }

  function ToPairs(ps: seq<Pair>, o: Options): (r: seq<Js>)
    ensures |r| == |ps|
    decreases ps, 0
  {
    if ps == [] then [] else ToPairs(ps[..|ps| - 1], o) + [ToPair(ps[|ps| - 1], o)]
  }

  function ToPair(p: Pair, o: Options): Js
    decreases p, 0
  {
    Arr([To(p.key, o), To(p.value, o)])
  }

  function ToFields(fs: seq<Field>, o: Options): seq<Field>
    decreases fs, 0
  {
    if fs == [] then []
    else Assign(ToFields(fs[..|fs| - 1], o), o.serializeKey(fs[|fs| - 1].name), To(fs[|fs| - 1].value, o))
  }

  /** Item by item what serializing makes of the values. */
  ghost predicate AreImages(vs: seq<Js>, items: seq<Js>, o: Options) {
    |items| == |vs| && forall i :: 0 <= i < |vs| ==> items[i] == To(vs[i], o)
  }

  ghost predicate ArePairImages(ps: seq<Pair>, items: seq<Js>, o: Options) {
    |items| == |ps| && forall i :: 0 <= i < |ps| ==> items[i] == Arr([To(ps[i].key, o), To(ps[i].value, o)])
  }

  lemma {:induction false} ToAllImages(vs: seq<Js>, o: Options)
    ensures AreImages(vs, ToAll(vs, o), o)
  {
    if vs != [] {
      var n := |vs| - 1;
      ToAllImages(vs[..n], o);
      forall i | 0 <= i < n ensures ToAll(vs, o)[i] == To(vs[i], o) { assert vs[..n][i] == vs[i]; }
    }
  }

  lemma {:induction false} ToPairsImages(ps: seq<Pair>, o: Options)
    ensures ArePairImages(ps, ToPairs(ps, o), o)
  {
    if ps != [] {
      var n := |ps| - 1;
      ToPairsImages(ps[..n], o);
      forall i | 0 <= i < n ensures ToPairs(ps, o)[i] == Arr([To(ps[i].key, o), To(ps[i].value, o)]) {
        assert ps[..n][i] == ps[i];
      }
    }
  }

  /** An object with the tag and, behind it, the payload. */
  function Wire(o: Options, tag: string, payload: Js): Js {
    Obj([Field(o.typeKey, Str(tag)), Field("value", payload)])
  }

  lemma TaggedIsWire(o: Options, tag: string, payload: Js)
    requires o.typeKey != "value"
    ensures Tagged(o, tag, payload) == Wire(o, tag, payload)
  {
    assert Names([Field(o.typeKey, Str(tag))]) == [o.typeKey];
  }

  /** What is written for each kind of value: the tag by which it is known, and its payload. */
  lemma WireFormat(v: Js, o: Options)
    requires o.typeKey != "value"
    ensures v.Undefined? ==> To(v, o) == Obj([Field(o.typeKey, Str("undefined"))])
    ensures v.Null? || v.Bool? || v.Num? || v.Str? ==> To(v, o) == v
    ensures v.BigInt? ==> To(v, o) == Wire(o, "bigint", Str(IntToString(v.v)))
    ensures v.Bytes? ==> To(v, o) == Wire(o, "Buffer", Str(BytesToHex(v.data)))
    ensures v.Date? ==> To(v, o) == Wire(o, "Date", Num(v.time))
    ensures v.JsSet? ==> exists items :: AreImages(v.members, items, o) && To(v, o) == Wire(o, "Set", Arr(items))
    ensures v.JsMap? ==> exists items :: ArePairImages(v.pairs, items, o) && To(v, o) == Wire(o, "Map", Arr(items))
    ensures v.Arr? ==> exists items :: AreImages(v.items, items, o) && To(v, o) == Arr(items)
  {
    match v
    case BigInt(n) => TaggedIsWire(o, "bigint", Str(IntToString(n)));
    case Bytes(data) => TaggedIsWire(o, "Buffer", Str(BytesToHex(data)));
    case Date(time) => TaggedIsWire(o, "Date", Num(time));
    case JsSet(members) =>
      ToAllImages(members, o);
      TaggedIsWire(o, "Set", Arr(ToAll(members, o)));
    case JsMap(pairs) =>
      ToPairsImages(pairs, o);
      TaggedIsWire(o, "Map", Arr(ToPairs(pairs, o)));
    case Arr(items) => ToAllImages(items, o);
    case _ =>
  }

  /** A tag whose value is missing. */
  function FromTagOnly(tag: string): Outcome<Js> {
    if tag == "undefined" then Value(Undefined) else if tag == "Date" then Outside else Throws
  }

  function From(j: Js, o: Options): Outcome<Js>
    decreases j, 1
  {
    match j
    case Null => Value(Null)
    case Arr(items) => FromAll(items, o).Map(vs => Arr(vs))
    case Obj(fields) =>
      if HasTag(fields, o.typeKey) then
        var tag, i := fields[Find(fields, o.typeKey)].value.s, Find(fields, "value");
        if i < |fields| then FromTagged(tag, fields[i].value, o) else FromTagOnly(tag)
      else FromFields(fields, o).Map(fs => Obj(fs))
    // plain and native values are left alone
    case _ => Value(j)
  }

  function FromTagged(tag: string, payload: Js, o: Options): Outcome<Js>
    decreases payload, 2
  {
    if tag == "undefined" then Value(Undefined)
    else if tag == "bigint" then
      if payload.Str? && ParseInt(payload.s).Some? then Value(BigInt(ParseInt(payload.s).value)) else Outside
    else if tag == "Buffer" then
      if payload.Str? then Value(Bytes(HexToBytes(payload.s))) else Outside
    else if tag == "Date" then
      if payload.Num? then Value(Date(payload.n)) else Outside
    else if tag == "Set" then
      if payload.Arr? then FromAll(payload.items, o).Map(vs => JsSet(MakeSet(vs)))
      else if payload.Bytes? then Outside
      else Throws
    else if tag == "Map" then
      if payload.Arr? then FromPairs(payload.items, o).Map(ps => JsMap(MakeMap(ps)))
      else if payload.Bytes? then Outside
      else Throws
    else Outside
  }

  /** One more result after the earlier ones; the first failure is the one that counts. */
  function Extend<T>(acc: Outcome<seq<T>>, last: Outcome<T>): (r: Outcome<seq<T>>)
    ensures r.Value? <==> acc.Value? && last.Value?
  {
    match acc
    case Value(vs) => last.Map(v => vs + [v])
    case Throws => Throws
    case Outside => Outside
  }

  function FromAll(js: seq<Js>, o: Options): (r: Outcome<seq<Js>>)
    ensures r.Value? ==> |r.value| == |js|
    decreases js, 0
  {
    if js == [] then Value([]) else Extend(FromAll(js[..|js| - 1], o), From(js[|js| - 1], o))
  }

  /** keyValues.map(...), which new Map reads as a pair. */
  function FromPairs(js: seq<Js>, o: Options): (r: Outcome<seq<Pair>>)
    ensures r.Value? ==> |r.value| == |js|
    decreases js, 0
  {
    if js == [] then Value([]) else Extend(FromPairs(js[..|js| - 1], o), FromPair(js[|js| - 1], o))
  }

  /** Absent entries are undefined, further ones are ignored. */
  function ReadPair(kv: seq<Js>): Pair {
    Pair(if |kv| > 0 then kv[0] else Undefined, if |kv| > 1 then kv[1] else Undefined)
  }

  /** A pair is its first two entries, however many there are. */
  lemma FurtherIgnored(kv: seq<Js>)
    requires |kv| >= 2
    ensures ReadPair(kv) == ReadPair(kv[..2]) == Pair(kv[0], kv[1])
  {
  }

  function FromPair(j: Js, o: Options): Outcome<Pair>
    decreases j, 0
  {
    if j.Arr? then FromAll(j.items, o).Map(kv => ReadPair(kv))
    else if j.Bytes? then Outside
    else Throws
  }

  function SetField(acc: Outcome<seq<Field>>, name: string, last: Outcome<Js>): (r: Outcome<seq<Field>>)
    ensures r.Value? <==> acc.Value? && last.Value?
  {
    match acc
    case Value(fs) => last.Map(v => Assign(fs, name, v))
    case Throws => Throws
    case Outside => Outside
  }

  function FromFields(fs: seq<Field>, o: Options): Outcome<seq<Field>>
    decreases fs, 0
  {
    if fs == [] then Value([])
    else
      var last := fs[|fs| - 1];
      SetField(FromFields(fs[..|fs| - 1], o), o.deserializeKey(last.name), From(last.value, o))
  }

  // ---------------------------------------------------------------- only JSON shapes

  predicate IsJson(v: Js)
    decreases v, 1
  {
    match v
    case Null => true
    case Bool(_) => true
    case Num(_) => true
    case Str(_) => true
    case Arr(items) => forall i :: 0 <= i < |items| ==> IsJson(items[i])
    case Obj(fields) => FieldsJson(fields)
    case _ => false
  }

  predicate FieldsJson(fs: seq<Field>)
    decreases fs, 0
  {
    forall i :: 0 <= i < |fs| ==> IsJson(fs[i].value)
  }

  /** Whatever is serialized, natives included and at any depth, only JSON shapes come out. */
  lemma {:induction false} OnlyJsonShapes(v: Js, o: Options)
    ensures IsJson(To(v, o))
    decreases v, 1
  {
    match v
    case JsSet(members) => AllJson(members, o);
    case JsMap(pairs) => PairsJson(pairs, o);
    case Arr(items) => AllJson(items, o);
    case Obj(fields) => ObjectJson(fields, o);
    case _ =>
  }

  lemma {:induction false} AllJson(vs: seq<Js>, o: Options)
    ensures forall i :: 0 <= i < |vs| ==> IsJson(ToAll(vs, o)[i])
    decreases vs, 0
  {
    if vs != [] {
      AllJson(vs[..|vs| - 1], o);
      OnlyJsonShapes(vs[|vs| - 1], o);
    }
  }

  lemma {:induction false} PairsJson(ps: seq<Pair>, o: Options)
    ensures forall i :: 0 <= i < |ps| ==> IsJson(ToPairs(ps, o)[i])
    decreases ps, 0
  {
    if ps != [] {
      PairsJson(ps[..|ps| - 1], o);
      PairJson(ps[|ps| - 1], o);
    }
  }

  lemma {:induction false} PairJson(p: Pair, o: Options)
    ensures IsJson(ToPair(p, o))
    decreases p, 0
  {
    OnlyJsonShapes(p.key, o);
    OnlyJsonShapes(p.value, o);
  }

  lemma {:induction false} AssignJson(fs: seq<Field>, name: string, value: Js)
    requires FieldsJson(fs) && IsJson(value)
    ensures FieldsJson(Assign(fs, name, value))
    decreases |fs|
  {
    if fs != [] && fs[0].name != name { AssignJson(fs[1..], name, value); }
  }

  lemma {:induction false} ObjectJson(fs: seq<Field>, o: Options)
    ensures FieldsJson(ToFields(fs, o))
    decreases fs, 0
  {
    if fs != [] {
      var last := fs[|fs| - 1];
      ObjectJson(fs[..|fs| - 1], o);
      OnlyJsonShapes(last.value, o);
      AssignJson(ToFields(fs[..|fs| - 1], o), o.serializeKey(last.name), To(last.value, o));
    }
  }

  // ---------------------------------------------------------------- values that exist

  /** A Set holds no primitive twice, a Map no primitive key twice, an object no name twice. */
  predicate WellFormed(v: Js)
    decreases v, 1
  {
    match v
    case JsSet(members) => MakeSet(members) == members && AllWellFormed(members)
    case JsMap(pairs) => MakeMap(pairs) == pairs && PairsWellFormed(pairs)
    case Arr(items) => AllWellFormed(items)
    case Obj(fields) => FieldsWellFormed(fields)
    case _ => true
  }

  predicate AllWellFormed(vs: seq<Js>)
    decreases vs, 0
  {
    vs == [] || (AllWellFormed(vs[..|vs| - 1]) && WellFormed(vs[|vs| - 1]))
  }

  predicate PairsWellFormed(ps: seq<Pair>)
    decreases ps, 0
  {
    ps == [] || (PairsWellFormed(ps[..|ps| - 1]) && PairWellFormed(ps[|ps| - 1]))
  }

  predicate PairWellFormed(p: Pair)
    decreases p, 0
  {
    WellFormed(p.key) && WellFormed(p.value)
  }

  predicate FieldsWellFormed(fs: seq<Field>)
    decreases fs, 0
  {
    fs == [] ||
    (FieldsWellFormed(fs[..|fs| - 1]) && WellFormed(fs[|fs| - 1].value)
     && fs[|fs| - 1].name !in Names(fs[..|fs| - 1]))
  }

  /** deserializeKey undoes serializeKey; the default keys are both the identity. */
  ghost predicate KeysInvert(o: Options) {
    forall k: string :: o.deserializeKey(o.serializeKey(k)) == k
  }

  // ---------------------------------------------------------------- values that survive

  predicate Collides(f: Field, o: Options) {
    o.serializeKey(f.name) == o.typeKey && f.value.Str? && f.value.s in TAGS
  }

  predicate NoCollision(fs: seq<Field>, o: Options) {
    forall i :: 0 <= i < |fs| ==> !Collides(fs[i], o)
  }

  /**
    No object, at any depth, carries a tag string under the type key; and when the type key is itself
    'value', nothing in v needs a payload beside its tag.
   */
  predicate Survives(v: Js, o: Options)
    decreases v, 1
  {
    match v
    case BigInt(_) => o.typeKey != "value"
    case Bytes(_) => o.typeKey != "value"
    case Date(_) => o.typeKey != "value"
    case JsSet(members) => o.typeKey != "value" && AllSurvive(members, o)
    case JsMap(pairs) => o.typeKey != "value" && PairsSurvive(pairs, o)
    case Arr(items) => AllSurvive(items, o)
    case Obj(fields) => NoCollision(fields, o) && FieldsSurvive(fields, o)
    case _ => true
  }

  predicate AllSurvive(vs: seq<Js>, o: Options)
    decreases vs, 0
  {
    vs == [] || (AllSurvive(vs[..|vs| - 1], o) && Survives(vs[|vs| - 1], o))
  }

  predicate PairsSurvive(ps: seq<Pair>, o: Options)
    decreases ps, 0
  {
    ps == [] || (PairsSurvive(ps[..|ps| - 1], o) && PairSurvives(ps[|ps| - 1], o))
  }

  predicate PairSurvives(p: Pair, o: Options)
    decreases p, 0
  {
    Survives(p.key, o) && Survives(p.value, o)
  }

  predicate FieldsSurvive(fs: seq<Field>, o: Options)
    decreases fs, 0
  {
    fs == [] || (FieldsSurvive(fs[..|fs| - 1], o) && Survives(fs[|fs| - 1].value, o))
  }

  // ---------------------------------------------------------------- tags and payloads

  /** A tag and its payload are both found again, unless the payload took the tag's place. */
  lemma TaggedBack(o: Options, tag: string, payload: Js)
    requires tag in TAGS && o.typeKey != "value"
    ensures From(Tagged(o, tag, payload), o) == FromTagged(tag, payload, o)
  {
    var fs := Assign([Field(o.typeKey, Str(tag))], "value", payload);
    assert Names([Field(o.typeKey, Str(tag))]) == [o.typeKey];
    assert fs == [Field(o.typeKey, Str(tag)), Field("value", payload)];
    assert Find(fs, o.typeKey) == 0 && Find(fs, "value") == 1;
  }

  /** A tag without a value stands for undefined only when it says so. */
  lemma TagAlone(tag: string, o: Options)
    requires tag in TAGS
    ensures From(Obj([Field(o.typeKey, Str(tag))]), o) == Value(Undefined) <==> tag == "undefined"
  {
  }

  /** With 'value' as the type key only the payload is left: an object, or the payload as its own tag. */
  lemma TagLost(o: Options, tag: string, payload: Js)
    requires o.typeKey == "value"
    ensures var r := From(Tagged(o, tag, payload), o);
            if payload.Str? && payload.s in TAGS then r == FromTagged(payload.s, payload, o)
            else r.Value? ==> r.value.Obj?
  {
  }

  /** A tag makes its own kind of value only. */
  lemma KindOfTag(tag: string, payload: Js, o: Options)
    ensures var r := FromTagged(tag, payload, o);
            && (r.Value? && r.value.BigInt? ==> tag == "bigint")
            && (r.Value? && r.value.Bytes? ==> tag == "Buffer")
  {
  }

  lemma NotTheBigintTag(n: int)
    ensures IntToString(n) != "bigint"
  {
    IntRoundTrip(n);
    assert "bigint"[5] == 't';
    assert ParseInt("bigint") == None;
  }

  lemma BigIntBack(n: int, o: Options)
    ensures From(To(BigInt(n), o), o) == Value(BigInt(n)) <==> o.typeKey != "value"
  {
    var s := IntToString(n);
    if o.typeKey == "value" {
      TagLost(o, "bigint", Str(s));
      NotTheBigintTag(n);
      KindOfTag(s, Str(s), o);
    } else {
      TaggedBack(o, "bigint", Str(s));
      IntRoundTrip(n);
    }
  }

  lemma NotTheBufferTag(data: seq<Byte>)
    ensures BytesToHex(data) != "Buffer"
  {
    if data != [] {
      DigitRoundTrip(data[0] % 16);
      assert BytesToHex(data)[1] == DigitChar(data[0] % 16);
      assert "Buffer"[1] == 'u';
    }
  }

  lemma BytesBack(data: seq<Byte>, o: Options)
    ensures From(To(Bytes(data), o), o) == Value(Bytes(data)) <==> o.typeKey != "value"
  {
    var s := BytesToHex(data);
    if o.typeKey == "value" {
      TagLost(o, "Buffer", Str(s));
      NotTheBufferTag(data);
      KindOfTag(s, Str(s), o);
    } else {
      TaggedBack(o, "Buffer", Str(s));
      HexRoundTrip(data);
    }
  }

  lemma DateBack(time: int, o: Options)
    ensures From(To(Date(time), o), o) == Value(Date(time)) <==> o.typeKey != "value"
  {
    if o.typeKey == "value" { TagLost(o, "Date", Num(time)); } else { TaggedBack(o, "Date", Num(time)); }
  }

  lemma UndefinedBack(o: Options)
    ensures From(To(Undefined, o), o) == Value(Undefined)
  {
  }

  /** A Set comes back exactly when its members do: nothing is dropped from as many distinct ones. */
  lemma SetBack(members: seq<Js>, o: Options)
    requires MakeSet(members) == members
    requires FromAll(ToAll(members, o), o) == Value(members) <==> AllSurvive(members, o)
    ensures From(To(JsSet(members), o), o) == Value(JsSet(members)) <==> Survives(JsSet(members), o)
  {
    var payload := Arr(ToAll(members, o));
    if o.typeKey == "value" { TagLost(o, "Set", payload); } else { TaggedBack(o, "Set", payload); }
  }

  lemma MapBack(pairs: seq<Pair>, o: Options)
    requires MakeMap(pairs) == pairs
    requires FromPairs(ToPairs(pairs, o), o) == Value(pairs) <==> PairsSurvive(pairs, o)
    ensures From(To(JsMap(pairs), o), o) == Value(JsMap(pairs)) <==> Survives(JsMap(pairs), o)
  {
    var payload := Arr(ToPairs(pairs, o));
    if o.typeKey == "value" { TagLost(o, "Map", payload); } else { TaggedBack(o, "Map", payload); }
  }

  // ---------------------------------------------------------------- the fields of an object

  lemma {:induction false} DistinctNames(fs: seq<Field>, i: nat, j: nat)
    requires FieldsWellFormed(fs) && i < j < |fs|
    ensures fs[i].name != fs[j].name
    decreases |fs|
  {
    if j == |fs| - 1 {
      assert Names(fs[..j])[i] == fs[i].name;
    } else {
      DistinctNames(fs[..|fs| - 1], i, j);
    }
  }

  lemma KeysDistinct(fs: seq<Field>, i: nat, j: nat, o: Options)
    requires FieldsWellFormed(fs) && KeysInvert(o) && i < j < |fs|
    ensures o.serializeKey(fs[i].name) != o.serializeKey(fs[j].name)
  {
    DistinctNames(fs, i, j);
    assert o.deserializeKey(o.serializeKey(fs[i].name)) == fs[i].name;
    assert o.deserializeKey(o.serializeKey(fs[j].name)) == fs[j].name;
  }

  function ToField(f: Field, o: Options): Field {
    Field(o.serializeKey(f.name), To(f.value, o))
  }

  lemma KeyIsNew(fs: seq<Field>, out: seq<Field>, o: Options)
    requires fs != [] && FieldsWellFormed(fs) && KeysInvert(o)
    requires |out| == |fs| - 1 && forall i :: 0 <= i < |out| ==> out[i] == ToField(fs[i], o)
    ensures o.serializeKey(fs[|fs| - 1].name) !in Names(out)
  {
    forall i | 0 <= i < |out|
      ensures Names(out)[i] != o.serializeKey(fs[|fs| - 1].name)
    {
      KeysDistinct(fs, i, |fs| - 1, o);
    }
  }

  /** Serialized objects keep their fields, in order, under the serialized names. */
  lemma {:induction false} FieldsKept(fs: seq<Field>, o: Options)
    requires FieldsWellFormed(fs) && KeysInvert(o)
    ensures |ToFields(fs, o)| == |fs|
    ensures forall i :: 0 <= i < |fs| ==> ToFields(fs, o)[i] == ToField(fs[i], o)
    ensures fs != [] ==> ToFields(fs, o) == ToFields(fs[..|fs| - 1], o) + [ToField(fs[|fs| - 1], o)]
    decreases |fs|
  {
    if fs != [] {
      FieldsKept(fs[..|fs| - 1], o);
      KeyIsNew(fs, ToFields(fs[..|fs| - 1], o), o);
    }
  }

  lemma TagOfField(f: Field, o: Options)
    ensures Collides(f, o) <==> var out := ToField(f, o); out.name == o.typeKey && out.value.Str? && out.value.s in TAGS
  {
  }

  /** The tag seen by the reader is a collision, and every collision is seen. */
  lemma TagFound(fs: seq<Field>, o: Options)
    requires FieldsWellFormed(fs) && KeysInvert(o)
    ensures HasTag(ToFields(fs, o), o.typeKey) <==> !NoCollision(fs, o)
  {
    FieldsKept(fs, o);
    var out := ToFields(fs, o);
    var k := Find(out, o.typeKey);
    if HasTag(out, o.typeKey) {
      TagOfField(fs[k], o);
    }
    if i :| 0 <= i < |fs| && Collides(fs[i], o) {
      TagOfField(fs[i], o);
      assert out[i].name == o.typeKey;
      if k < i { KeysDistinct(fs, k, i, o); }
      assert k == i;
    }
  }

  /** An object that carries a tag is read as something else, or not at all. */
  lemma TaggedNotObject(out: seq<Field>, o: Options)
    requires HasTag(out, o.typeKey)
    ensures From(Obj(out), o).Value? ==> !From(Obj(out), o).value.Obj?
  {
  }

  lemma UntaggedObject(out: seq<Field>, fs: seq<Field>, o: Options)
    requires !HasTag(out, o.typeKey)
    ensures From(Obj(out), o) == Value(Obj(fs)) <==> FromFields(out, o) == Value(fs)
  {
  }

  /** An object is read as itself when it carries no tag and its fields are. */
  lemma ReadObject(out: seq<Field>, fs: seq<Field>, o: Options)
    ensures From(Obj(out), o) == Value(Obj(fs)) <==> !HasTag(out, o.typeKey) && FromFields(out, o) == Value(fs)
  {
    if HasTag(out, o.typeKey) { TaggedNotObject(out, o); } else { UntaggedObject(out, fs, o); }
  }

  lemma ObjectBack(fs: seq<Field>, o: Options)
    requires FieldsWellFormed(fs) && KeysInvert(o)
    requires FromFields(ToFields(fs, o), o) == Value(fs) <==> FieldsSurvive(fs, o)
    ensures From(To(Obj(fs), o), o) == Value(Obj(fs)) <==> Survives(Obj(fs), o)
  {
    TagFound(fs, o);
    ReadObject(ToFields(fs, o), fs, o);
    assert To(Obj(fs), o) == Obj(ToFields(fs, o));
  }

  // ---------------------------------------------------------------- the round trip

  /** Deserializing a serialized value gives it back exactly when the value survives. */
  lemma {:induction false} RoundTrip(v: Js, o: Options)
    requires WellFormed(v) && KeysInvert(o)
    ensures From(To(v, o), o) == Value(v) <==> Survives(v, o)
    decreases v, 1
  {
    match v
    case Undefined => UndefinedBack(o);
    case BigInt(n) => BigIntBack(n, o);
    case Bytes(data) => BytesBack(data, o);
    case Date(time) => DateBack(time, o);
    case JsSet(members) => RoundTripAll(members, o); SetBack(members, o);
    case JsMap(pairs) => RoundTripPairs(pairs, o); MapBack(pairs, o);
    case Arr(items) => RoundTripAll(items, o);
    case Obj(fields) => RoundTripFields(fields, o); ObjectBack(fields, o);
    case _ =>
  }

  lemma ExtendBack<T>(acc: Outcome<seq<T>>, last: Outcome<T>, vs: seq<T>)
    requires vs != []
    ensures Extend(acc, last) == Value(vs) <==> acc == Value(vs[..|vs| - 1]) && last == Value(vs[|vs| - 1])
  {
    assert vs == vs[..|vs| - 1] + [vs[|vs| - 1]];
    if acc.Value? && last.Value? && acc.value + [last.value] == vs {
      assert (acc.value + [last.value])[..|vs| - 1] == acc.value;
    }
  }

  lemma {:induction false} RoundTripAll(vs: seq<Js>, o: Options)
    requires AllWellFormed(vs) && KeysInvert(o)
    ensures FromAll(ToAll(vs, o), o) == Value(vs) <==> AllSurvive(vs, o)
    decreases vs, 0
  {
    if vs != [] {
      var front, last := vs[..|vs| - 1], vs[|vs| - 1];
      RoundTripAll(front, o);
      RoundTrip(last, o);
      assert ToAll(vs, o)[..|vs| - 1] == ToAll(front, o);
      ExtendBack(FromAll(ToAll(front, o), o), From(To(last, o), o), vs);
    }
  }

  lemma {:induction false} RoundTripPairs(ps: seq<Pair>, o: Options)
    requires PairsWellFormed(ps) && KeysInvert(o)
    ensures FromPairs(ToPairs(ps, o), o) == Value(ps) <==> PairsSurvive(ps, o)
    decreases ps, 0
  {
    if ps != [] {
      var front, last := ps[..|ps| - 1], ps[|ps| - 1];
      RoundTripPairs(front, o);
      RoundTripPair(last, o);
      assert ToPairs(ps, o)[..|ps| - 1] == ToPairs(front, o);
      ExtendBack(FromPairs(ToPairs(front, o), o), FromPair(ToPair(last, o), o), ps);
    }
  }

  lemma FromTwo(a: Js, b: Js, o: Options)
    ensures From(a, o).Value? && From(b, o).Value? ==>
              FromAll([a, b], o) == Value([From(a, o).value, From(b, o).value])
    ensures FromAll([a, b], o).Value? ==> From(a, o).Value? && From(b, o).Value?
  {
    assert [a, b][..1] == [a];
    assert FromAll([a, b], o) == Extend(FromAll([a], o), From(b, o));
    assert [a][..0] == [];
    assert FromAll([a], o) == Extend(Value([]), From(a, o));
    if From(a, o).Value? && From(b, o).Value? {
      assert [] + [From(a, o).value] + [From(b, o).value] == [From(a, o).value, From(b, o).value];
    }
  }

  lemma {:induction false} RoundTripPair(p: Pair, o: Options)
    requires PairWellFormed(p) && KeysInvert(o)
    ensures FromPair(ToPair(p, o), o) == Value(p) <==> PairSurvives(p, o)
    decreases p, 0
  {
    RoundTrip(p.key, o);
    RoundTrip(p.value, o);
    FromTwo(To(p.key, o), To(p.value, o), o);
  }

  /** Reading the fields written for fs reads those of its front, then the last one. */
  lemma FieldsStep(fs: seq<Field>, o: Options)
    requires fs != [] && FieldsWellFormed(fs) && KeysInvert(o)
    ensures var front, last := fs[..|fs| - 1], fs[|fs| - 1];
            FromFields(ToFields(fs, o), o)
              == SetField(FromFields(ToFields(front, o), o), last.name, From(To(last.value, o), o))
  {
    FieldsKept(fs, o);
    var out, last := ToFields(fs, o), fs[|fs| - 1];
    assert out[..|out| - 1] == ToFields(fs[..|fs| - 1], o) && out[|out| - 1] == ToField(last, o);
    assert o.deserializeKey(o.serializeKey(last.name)) == last.name;
  }

  lemma SetFieldBack(acc: Outcome<seq<Field>>, last: Outcome<Js>, fs: seq<Field>)
    requires fs != [] && FieldsWellFormed(fs)
    requires acc.Value? ==> Names(acc.value) == Names(fs[..|fs| - 1])
    ensures var r := SetField(acc, fs[|fs| - 1].name, last);
            && (r.Value? ==> Names(r.value) == Names(fs))
            && (r == Value(fs) <==> acc == Value(fs[..|fs| - 1]) && last == Value(fs[|fs| - 1].value))
  {
    var name := fs[|fs| - 1].name;
    if acc.Value? && last.Value? {
      var added := Field(name, last.value);
      assert SetField(acc, name, last) == Value(acc.value + [added]);
      assert Names(acc.value + [added]) == Names(acc.value) + [name];
      assert Names(fs) == Names(fs[..|fs| - 1]) + [name];
      ExtendBack(acc, Value(added), fs);
    }
  }

  lemma {:induction false} RoundTripFields(fs: seq<Field>, o: Options)
    requires FieldsWellFormed(fs) && KeysInvert(o)
    ensures var r := FromFields(ToFields(fs, o), o); r.Value? ==> Names(r.value) == Names(fs)
    ensures FromFields(ToFields(fs, o), o) == Value(fs) <==> FieldsSurvive(fs, o)
    decreases fs, 0
  {
    if fs != [] {
      var front, last := fs[..|fs| - 1], fs[|fs| - 1];
      RoundTripFields(front, o);
      RoundTrip(last.value, o);
      FieldsStep(fs, o);
      SetFieldBack(FromFields(ToFields(front, o), o), From(To(last.value, o), o), fs);
    }
  }

  /** An object that says it is undefined is read as undefined. */
  lemma CollisionExample(name: string, o: Options)
    requires o.serializeKey(name) == o.typeKey
    ensures From(To(Obj([Field(name, Str("undefined"))]), o), o) == Value(Undefined)
  {
    var fs := [Field(name, Str("undefined"))];
    assert fs[..0] == [];
    assert ToFields(fs, o) == Assign(ToFields([], o), o.typeKey, Str("undefined"));
    UndefinedBack(o);
  }
}
