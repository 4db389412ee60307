/** Metadata as a caller gives it, and as it comes back from a manifest file (apps/api/storage/filesystem.py,
    `_canonical_json` and the `json.loads` that reads it). */
module StorageMetadata {

  /** A value that a caller may put into metadata. Numbers are known by their spelling; a foreign
      value is anything that JSON refuses. */
  datatype Value =
    | Null
    | Flag(flag: bool)
    | Number(spelling: string)
    | Text(text: string)
    | List(items: seq<Value>)
    | Tuple(items: seq<Value>)
    | Table(fields: map<string, Value>)
    | Foreign(kind: string)

  type Metadata = map<string, Value>

  /** What `json.dumps` accepts. */
  predicate Representable(v: Value) {
    match v
    case List(items) => forall x | x in items :: Representable(x)
    case Tuple(items) => forall x | x in items :: Representable(x)
    case Table(fields) => forall k | k in fields :: Representable(fields[k])
    case Foreign(_) => false
    case _ => true
  }

  /** What `json.loads` makes of what `json.dumps` wrote: JSON has lists only. */
  function Parsed(v: Value): Value {
    match v
    case List(items) => List(seq(|items|, i requires 0 <= i < |items| => Parsed(items[i])))
    case Tuple(items) => List(seq(|items|, i requires 0 <= i < |items| => Parsed(items[i])))
    case Table(fields) => Table(map k | k in fields :: Parsed(fields[k]))
    case _ => v
  }

  /** No tuple, at any depth. */
  predicate Plain(v: Value) {
    match v
    case List(items) => forall x | x in items :: Plain(x)
    case Tuple(_) => false
    case Table(fields) => forall k | k in fields :: Plain(fields[k])
    case _ => true
  }

  ghost predicate Exact(v: Value) {
    (Parsed(v) == v <==> Plain(v)) && Plain(Parsed(v)) && (Representable(Parsed(v)) <==> Representable(v))
  }

  /** The round trip loses nothing but the difference between tuples and lists, and a second one nothing more. */
  lemma ParsedExact(v: Value)
    ensures Parsed(v) == v <==> Plain(v)
    ensures Plain(Parsed(v))
    ensures Representable(Parsed(v)) <==> Representable(v)
  {
    hide Parsed, Plain, Representable;
    AllExact(v);
  }

  lemma {:induction false} AllExact(v: Value)
    ensures Exact(v)
  {
    hide Exact;
    match v
    case List(items) =>
      forall x | x in items ensures Exact(x) { AllExact(x); }
      ListExact(items);
    case Tuple(items) =>
      forall x | x in items ensures Exact(x) { AllExact(x); }
      TupleExact(items);
    case Table(fields) =>
      forall k | k in fields ensures Exact(fields[k]) { AllExact(fields[k]); }
      TableExact(fields);
    case _ => LeafExact(v);
  }

  lemma LeafExact(v: Value)
    requires !v.List? && !v.Tuple? && !v.Table?
    ensures Exact(v)
  {
  }

  lemma ListExact(items: seq<Value>)
    requires forall x | x in items :: Exact(x)
    ensures Exact(List(items))
  {
    ItemsExact(items, Parsed(List(items)).items);
  }

  lemma TupleExact(items: seq<Value>)
    requires forall x | x in items :: Exact(x)
    ensures Exact(Tuple(items))
  {
    ItemsExact(items, Parsed(Tuple(items)).items);
  }

  lemma TableExact(fields: map<string, Value>)
    requires forall k | k in fields :: Exact(fields[k])
    ensures Exact(Table(fields))
  {
    FieldsExact(fields, Parsed(Table(fields)).fields);
  }

  lemma ItemsExact(items: seq<Value>, parsed: seq<Value>)
    requires |parsed| == |items| && (forall i | 0 <= i < |items| :: parsed[i] == Parsed(items[i]))
    requires forall x | x in items :: Exact(x)
    ensures (parsed == items <==> forall x | x in items :: Plain(x)) && (forall x | x in parsed :: Plain(x))
    ensures (forall x | x in parsed :: Representable(x)) <==> (forall x | x in items :: Representable(x))
  {
    hide Plain, Representable, Parsed;
    forall x | x in parsed ensures exists y :: y in items && x == Parsed(y) && Exact(y) {
      var i :| 0 <= i < |parsed| && parsed[i] == x;
      assert items[i] in items;
    }
    if forall x | x in parsed :: Representable(x) {
      forall i | 0 <= i < |items| ensures Representable(items[i]) { assert parsed[i] in parsed && Exact(items[i]); }
    }
    if parsed == items {
      forall i | 0 <= i < |items| ensures Plain(items[i]) { assert parsed[i] == items[i] && Exact(items[i]); }
    }
    if forall x | x in items :: Plain(x) {
      forall i | 0 <= i < |items| ensures parsed[i] == items[i] { assert items[i] in items && Exact(items[i]); }
    }
  }

  lemma FieldsExact(fields: map<string, Value>, parsed: map<string, Value>)
    requires parsed.Keys == fields.Keys && (forall k | k in fields :: parsed[k] == Parsed(fields[k]))
    requires forall k | k in fields :: Exact(fields[k])
    ensures (parsed == fields <==> forall k | k in fields :: Plain(fields[k]))
        && (forall k | k in parsed :: Plain(parsed[k]))
    ensures (forall k | k in parsed :: Representable(parsed[k])) <==>
        (forall k | k in fields :: Representable(fields[k]))
  {
    hide Plain, Representable, Parsed;
    if parsed == fields {
      forall k | k in fields ensures Plain(fields[k]) { assert parsed[k] == fields[k]; }
    }
  }

  predicate Serializable(m: Metadata) { Representable(Table(m)) }

  function Parse(m: Metadata): Metadata { Parsed(Table(m)).fields }

  /** Metadata survives the round trip exactly when it holds no tuple. */
  lemma SurvivesExactly(m: Metadata)
    ensures Parse(m) == m <==> Plain(Table(m))
    ensures Parse(Parse(m)) == Parse(m)
  {
    ParsedExact(Table(m));
    ParsedExact(Parsed(Table(m)));
  }

  // ----- what the two conditions mean -----

  /** A value is the whole, or occurs in one of its parts. */
  predicate Occurs(x: Value, v: Value) {
    x == v ||
    match v
    case List(items) => exists y | y in items :: Occurs(x, y)
    case Tuple(items) => exists y | y in items :: Occurs(x, y)
    case Table(fields) => exists k | k in fields :: Occurs(x, fields[k])
    case _ => false
  }

  /** Metadata is written exactly when no foreign value occurs in it, and survives exactly when no tuple does. */
  lemma OccurrencesDecide(m: Metadata)
    ensures Serializable(m) <==> forall x: Value :: x.Foreign? ==> !Occurs(x, Table(m))
    ensures Parse(m) == m <==> forall x: Value :: x.Tuple? ==> !Occurs(x, Table(m))
    ensures forall x: Value :: x.Tuple? ==> !Occurs(x, Table(Parse(m)))
  {
    hide Representable, Plain, Parsed, Occurs;
    SurvivesExactly(m);
    ParsedExact(Table(m));
    Decided(Table(m));
    Decided(Parsed(Table(m)));
    assert Table(Parse(m)) == Parsed(Table(m)) by { ParsedTable(m); }
  }

  lemma ParsedTable(m: Metadata)
    ensures Parsed(Table(m)).Table?
  {
  }

  lemma {:induction false} Decided(v: Value)
    ensures Representable(v) <==> forall x: Value :: x.Foreign? ==> !Occurs(x, v)
    ensures Plain(v) <==> forall x: Value :: x.Tuple? ==> !Occurs(x, v)
  {
    match v
    case List(items) => forall y | y in items { Decided(y); }
    case Tuple(items) =>
      forall y | y in items { Decided(y); }
      assert Occurs(v, v);
    case Table(fields) => forall k | k in fields { Decided(fields[k]); }
    case _ => assert Occurs(v, v);
  }
}
