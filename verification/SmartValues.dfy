/** The numbers `smartmon.py` digs out of its sources: fallback chains and the rating table. */
module SmartValues {
  import opened Prelude
  import opened PyText

  /** A value found in a source; an object may have numeric attributes `value` and `raw`. */
  datatype PyValue =
    | Nothing | Number(r: real) | Text(s: string) | Object(value: Option<real>, raw: Option<real>) | Other

  /** `coerce_numeric`, given how text is read as a number. */
  function Coerce(v: PyValue, parse: string -> Option<real>): Option<real> {
    match v
    case Nothing => None
    case Number(r) => Some(r)
    case Text(s) => parse(s)
    case Object(value, raw) => if value.Some? then value else raw
    case Other => None
  }

  /** A number is what it is, text what it reads as, and an object its `value`, or else its `raw`. */
  lemma CoerceIff(v: PyValue, parse: string -> Option<real>, r: real)
    ensures Coerce(v, parse) == Some(r) <==>
            || v == Number(r)
            || (exists s :: v == Text(s) && parse(s) == Some(r))
            || (exists raw :: v == Object(Some(r), raw))
            || v == Object(None, Some(r))
  {
    if v.Text? { assert v == Text(v.s); }
    if v.Object? { assert v == Object(v.value, v.raw); }
  }

  function FirstNumber(sources: seq<PyValue>, parse: string -> Option<real>): Option<real> {
    if sources == [] then None
    else if Coerce(sources[0], parse).Some? then Coerce(sources[0], parse)
    else FirstNumber(sources[1..], parse)
  }

  /** It is the number that the first coercible source gives. */
  lemma {:induction false} FirstNumberIsFirst(sources: seq<PyValue>, parse: string -> Option<real>, i: nat)
    requires i < |sources| && forall j :: 0 <= j < i ==> Coerce(sources[j], parse).None?
    ensures Coerce(sources[i], parse).Some? ==> FirstNumber(sources, parse) == Coerce(sources[i], parse)
    ensures i == |sources| - 1 && Coerce(sources[i], parse).None? ==> FirstNumber(sources, parse).None?
  {
    if i > 0 { FirstNumberIsFirst(sources[1..], parse, i - 1); }
  }

  method NumericValue(sources: seq<PyValue>, parse: string -> Option<real>) returns (r: Option<real>)
    ensures r == FirstNumber(sources, parse)
  {
    for i := 0 to |sources|
      invariant FirstNumber(sources, parse) == FirstNumber(sources[i..], parse)
    {
      var value := Coerce(sources[i], parse);
      if value.Some? {
        return value;
      }
      assert sources[i..][1..] == sources[i + 1..];
    }
    r := None;
  }

  lemma {:induction false} FirstNumberConcat(a: seq<PyValue>, b: seq<PyValue>, parse: string -> Option<real>)
    ensures FirstNumber(a + b, parse) == if FirstNumber(a, parse).Some? then FirstNumber(a, parse)
            else FirstNumber(b, parse)
  {
    if a == [] {
      assert a + b == b;
    } else {
      FirstNumberConcat(a[1..], b, parse);
      assert (a + b)[1..] == a[1..] + b;
    }
  }

  // -----------------------------------------------------------------------------------------------
  // The capacity of the namespaces
  // -----------------------------------------------------------------------------------------------

  /** A field of a namespace: a dictionary (perhaps without `bytes`, or missing), or something else. */
  datatype Field = Bytes(v: PyValue) | NotADict

  datatype Namespace = Namespace(capacity: Field, size: Field, utilization: Field) | NotANamespace

  /** Calling `get` on something that is no dictionary, or a report that is not JSON. */
  datatype ReportError = AttributeError | JSONDecodeError

  predicate Malformed(n: Namespace) {
    n.Namespace? && (n.capacity.NotADict? || n.size.NotADict? || n.utilization.NotADict?)
  }

  function SourcesOf(n: Namespace): seq<PyValue> {
    if n.NotANamespace? || Malformed(n) then [] else [n.capacity.v, n.size.v, n.utilization.v]
  }

  /** The sources of all namespaces, one after the other. */
  function Flatten(ns: seq<Namespace>): seq<PyValue> {
    if ns == [] then [] else Flatten(ns[..|ns| - 1]) + SourcesOf(ns[|ns| - 1])
  }

  /** A namespace gives its capacity, or else its size, or else its utilization. */
  lemma SourcesInOrder(n: Namespace, parse: string -> Option<real>)
    requires n.Namespace? && n.capacity.Bytes? && n.size.Bytes? && n.utilization.Bytes?
    ensures var c, s, u := Coerce(n.capacity.v, parse), Coerce(n.size.v, parse), Coerce(n.utilization.v, parse);
            FirstNumber(SourcesOf(n), parse) == if c.Some? then c else if s.Some? then s else u
  {
    ThreeSources(n.capacity.v, n.size.v, n.utilization.v, parse);
  }

  lemma ThreeSources(a: PyValue, b: PyValue, c: PyValue, parse: string -> Option<real>)
    ensures FirstNumber([a, b, c], parse) ==
            if Coerce(a, parse).Some? then Coerce(a, parse) else if Coerce(b, parse).Some? then Coerce(b, parse)
                else Coerce(c, parse)
  {
    var sources := [a, b, c];
    if Coerce(a, parse).Some? {
      FirstNumberIsFirst(sources, parse, 0);
    } else if Coerce(b, parse).Some? {
      FirstNumberIsFirst(sources, parse, 1);
    } else {
      FirstNumberIsFirst(sources, parse, 2);
    }
  }

  lemma FlattenNext(ns: seq<Namespace>, k: nat)
    requires 0 < k <= |ns|
    ensures Flatten(ns[..k]) == Flatten(ns[..k - 1]) + SourcesOf(ns[k - 1])
  {
    assert ns[..k][..k - 1] == ns[..k - 1];
  }

  /** What the first `k` namespaces give. */
  ghost function FoundBefore(ns: seq<Namespace>, parse: string -> Option<real>, k: nat): Option<real>
    requires k <= |ns|
  {
    if k == 0 then None
    else if FoundBefore(ns, parse, k - 1).Some? then FoundBefore(ns, parse, k - 1)
    else FirstNumber(SourcesOf(ns[k - 1]), parse)
  }

  lemma {:induction false} FoundBeforeFlattens(ns: seq<Namespace>, parse: string -> Option<real>, k: nat)
    requires k <= |ns|
    ensures FoundBefore(ns, parse, k) == FirstNumber(Flatten(ns[..k]), parse)
  {
    if k > 0 {
      var a, b := Flatten(ns[..k - 1]), SourcesOf(ns[k - 1]);
      FoundBeforeFlattens(ns, parse, k - 1);
      FlattenNext(ns, k);
      FirstNumberConcat(a, b, parse);
    }
  }

  lemma {:induction false} FoundStays(ns: seq<Namespace>, parse: string -> Option<real>, i: nat, k: nat)
    requires i <= k <= |ns| && FoundBefore(ns, parse, i).Some?
    ensures FoundBefore(ns, parse, k) == FoundBefore(ns, parse, i)
  {
    if i < k { FoundStays(ns, parse, i, k - 1); }
  }

  /** The loop raises at namespace `k`: it is malformed, and no earlier one gave a number. */
  ghost predicate RaisesAt(ns: seq<Namespace>, parse: string -> Option<real>, k: int) {
    0 <= k < |ns| && Malformed(ns[k]) && FoundBefore(ns, parse, k).None?
  }

  /** One namespace; entries that are no dictionary are skipped. */
  method OneNamespace(n: Namespace, parse: string -> Option<real>) returns (r: Result<Option<real>, ReportError>)
    ensures r.Err? <==> Malformed(n)
    ensures r.Err? ==> r.error == AttributeError
    ensures r.Ok? ==> r.value == FirstNumber(SourcesOf(n), parse)
  {
    if n.NotANamespace? {
      return Ok(None);
    }
    if n.capacity.NotADict? || n.size.NotADict? || n.utilization.NotADict? {
      return Err(AttributeError);
    }
    var capacity := NumericValue([n.capacity.v, n.size.v, n.utilization.v], parse);
    r := Ok(capacity);
  }

  lemma AllFlattened(ns: seq<Namespace>, parse: string -> Option<real>)
    ensures FoundBefore(ns, parse, |ns|) == FirstNumber(Flatten(ns), parse)
  {
    FoundBeforeFlattens(ns, parse, |ns|);
    assert ns[..|ns|] == ns;
  }

  /** Once a namespace gives a number, that is the result, and nothing raises after it. */
  lemma FoundAt(ns: seq<Namespace>, parse: string -> Option<real>, i: nat)
    requires i < |ns| && FoundBefore(ns, parse, i).None? && FirstNumber(SourcesOf(ns[i]), parse).Some?
    ensures FirstNumber(Flatten(ns), parse) == FirstNumber(SourcesOf(ns[i]), parse)
    ensures forall k :: RaisesAt(ns, parse, k) ==> k <= i
  {
    AllFlattened(ns, parse);
    FoundStays(ns, parse, i + 1, |ns|);
    forall k | RaisesAt(ns, parse, k) ensures k <= i {
      if k > i { FoundStays(ns, parse, i + 1, k); }
    }
  }

  /** The loop over namespaces finds the first number of the flattened sources, unless it raises on the way. */
  method NamespaceCapacity(ns: seq<Namespace>, parse: string -> Option<real>)
    returns (r: Result<Option<real>, ReportError>)
    ensures r.Err? <==> exists k :: RaisesAt(ns, parse, k)
    ensures r.Err? ==> r.error == AttributeError
    ensures r.Ok? ==> r.value == FirstNumber(Flatten(ns), parse)
  {
    for i := 0 to |ns|
      invariant FoundBefore(ns, parse, i) == None
      invariant forall k :: RaisesAt(ns, parse, k) ==> k >= i
    {
      var capacity := OneNamespace(ns[i], parse);
      if capacity.Err? {
        assert RaisesAt(ns, parse, i);
        return capacity;
      }
      if capacity.value.Some? {
        FoundAt(ns, parse, i);
        return capacity;
      }
    }
    AllFlattened(ns, parse);
    r := Ok(None);
  }

  // -----------------------------------------------------------------------------------------------
  // Rated drive writes per day
  // -----------------------------------------------------------------------------------------------

  const DEFAULT_DWPD := 1.0

  /** An entry of the ratings file; the model name as text. */
  datatype Entry = Rating(modelName: string, rated: PyValue) | NotARating

  /** The rating the entry gives to the model name `key`, already trimmed and lowered. */
  function RatingFor(e: Entry, key: string, parse: string -> Option<real>): Option<real> {
    if e.Rating? && Trim(e.modelName) != "" && Lower(Trim(e.modelName)) == key then Coerce(e.rated, parse) else None
  }

  /** The rating of the last entry that gives one. */
  function LastRating(entries: seq<Entry>, key: string, parse: string -> Option<real>): Option<real> {
    if entries == [] then None
    else
      var last := RatingFor(entries[|entries| - 1], key, parse);
      if last.Some? then last else LastRating(entries[..|entries| - 1], key, parse)
  }

  function Get<K, V>(m: map<K, V>, k: K): Option<V> {
    if k in m then Some(m[k]) else None
  }

  /** The name and rating of an entry that has both. */
  function ValidEntry(e: Entry, parse: string -> Option<real>): Option<(string, real)> {
    if e.Rating? && Trim(e.modelName) != "" && Coerce(e.rated, parse).Some?
    then Some((Lower(Trim(e.modelName)), Coerce(e.rated, parse).value)) else None
  }

  lemma LastRatingNext(entries: seq<Entry>, key: string, parse: string -> Option<real>, i: nat)
    requires i < |entries|
    ensures var e := ValidEntry(entries[i], parse);
            LastRating(entries[..i + 1], key, parse) ==
            if e.Some? && e.value.0 == key then Some(e.value.1) else LastRating(entries[..i], key, parse)
  {
    assert entries[..i + 1][..i] == entries[..i];
  }

  ghost predicate Loaded(mapping: map<string, real>, entries: seq<Entry>, parse: string -> Option<real>) {
    forall key :: Get(mapping, key) == LastRating(entries, key, parse)
  }

  lemma LoadedNext(mapping: map<string, real>, entries: seq<Entry>, parse: string -> Option<real>, i: nat)
    requires i < |entries| && Loaded(mapping, entries[..i], parse)
    ensures var e := ValidEntry(entries[i], parse);
            Loaded(if e.Some? then mapping[e.value.0 := e.value.1] else mapping, entries[..i + 1], parse)
  {
    var e := ValidEntry(entries[i], parse);
    var next := if e.Some? then mapping[e.value.0 := e.value.1] else mapping;
    forall key ensures Get(next, key) == LastRating(entries[..i + 1], key, parse) {
      LastRatingNext(entries, key, parse, i);
      assert Get(mapping, key) == LastRating(entries[..i], key, parse);
    }
  }

  method LoadRatings(entries: seq<Entry>, parse: string -> Option<real>) returns (mapping: map<string, real>)
    ensures Loaded(mapping, entries, parse)
  {
    mapping := map[];
    for i := 0 to |entries|
      invariant Loaded(mapping, entries[..i], parse)
    {
      LoadedNext(mapping, entries, parse, i);
      var entry := ValidEntry(entries[i], parse);
      if entry.Some? {
        mapping := mapping[entry.value.0 := entry.value.1];
      }
    }
    assert entries[..|entries|] == entries;
  }

  function RatedDwpd(ratings: map<string, real>, modelName: string): real {
    if modelName == "" then DEFAULT_DWPD
    else
      var key := Trim(Lower(modelName));
      if key in ratings then ratings[key] else DEFAULT_DWPD
  }

  lemma {:induction false} NoRatingForEmpty(entries: seq<Entry>, parse: string -> Option<real>)
    ensures LastRating(entries, "", parse) == None
  {
    if entries != [] {
      NoRatingForEmpty(entries[..|entries| - 1], parse);
      assert entries[|entries| - 1].Rating?
             ==> |Lower(Trim(entries[|entries| - 1].modelName))| == |Trim(entries[|entries| - 1].modelName)|;
    }
  }

  /** Loading and looking up: the rating of the last entry whose trimmed name is the model's, whatever the case. */
  lemma RatedDwpdIsLastRating(entries: seq<Entry>, ratings: map<string, real>, parse: string -> Option<real>,
                              modelName: string)
    requires Loaded(ratings, entries, parse)
    ensures RatedDwpd(ratings, modelName) ==
            match LastRating(entries, Lower(Trim(modelName)), parse) case Some(r) => r case None => 1.0
  {
    TrimLower(modelName);
    NoRatingForEmpty(entries, parse);
    var key := Lower(Trim(modelName));
    assert Get(ratings, key) == LastRating(entries, key, parse);
    if modelName == "" {
      StripBare(modelName, IsSpace);
      assert key == "";
    }
  }

  /** The entry rates the model: its name is the same but for blanks around it and the case of letters. */
  ghost predicate Rates(e: Entry, modelName: string, parse: string -> Option<real>, r: real) {
    exists name, v ::
      e == Rating(name, v) && Trim(name) != "" && Lower(Trim(name)) == Lower(Trim(modelName))
          && Coerce(v, parse) == Some(r)
  }

  /** The last entry that rates the model. */
  ghost predicate RatesLast(entries: seq<Entry>, modelName: string, parse: string -> Option<real>, i: int, r: real) {
    && 0 <= i < |entries| && Rates(entries[i], modelName, parse, r)
    && forall j, q :: i < j < |entries| ==> !Rates(entries[j], modelName, parse, q)
  }

  ghost predicate Unrated(entries: seq<Entry>, modelName: string, parse: string -> Option<real>) {
    forall j, q :: 0 <= j < |entries| ==> !Rates(entries[j], modelName, parse, q)
  }

  lemma RatesIff(e: Entry, modelName: string, parse: string -> Option<real>, r: real)
    ensures RatingFor(e, Lower(Trim(modelName)), parse) == Some(r) <==> Rates(e, modelName, parse, r)
  {
    if e.Rating? {
      assert e == Rating(e.modelName, e.rated);
    }
  }

  /** Where the last rating for a key is; -1 when there is none. */
  lemma {:induction false} LastRatingAt(entries: seq<Entry>, key: string, parse: string -> Option<real>)
    returns (i: int)
    ensures -1 <= i < |entries| && forall j :: i < j < |entries| ==> RatingFor(entries[j], key, parse) == None
    ensures i >= 0 ==> LastRating(entries, key, parse) == RatingFor(entries[i], key, parse) != None
    ensures i < 0 ==> LastRating(entries, key, parse) == None
  {
    if entries == [] {
      i := -1;
    } else if RatingFor(entries[|entries| - 1], key, parse).Some? {
      i := |entries| - 1;
    } else {
      i := LastRatingAt(entries[..|entries| - 1], key, parse);
    }
  }

  /** Loading and looking up give the rating of the last entry that rates the model, and 1.0 where none does. */
  lemma RatedDwpdExact(entries: seq<Entry>, ratings: map<string, real>, parse: string -> Option<real>,
                       modelName: string)
    requires Loaded(ratings, entries, parse)
    ensures (Unrated(entries, modelName, parse) && RatedDwpd(ratings, modelName) == 1.0)
            || exists i :: RatesLast(entries, modelName, parse, i, RatedDwpd(ratings, modelName))
  {
    var key := Lower(Trim(modelName));
    var i := LastRatingAt(entries, key, parse);
    RatedDwpdIsLastRating(entries, ratings, parse, modelName);
    forall j, q | 0 <= j < |entries| ensures Rates(entries[j], modelName, parse, q)
        <==> RatingFor(entries[j], key, parse) == Some(q) {
      RatesIff(entries[j], modelName, parse, q);
    }
    if i >= 0 {
      assert RatesLast(entries, modelName, parse, i, RatedDwpd(ratings, modelName));
    }
  }
}
