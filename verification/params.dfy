/** The parameter coercer of `src/params.js`: `extract` looks a raw value up
    by the parameter's name and coerces it by the declared `type`, `format`
    and `collectionFormat`; `extractOne` coerces a single value. Every
    exception inside `extract`'s `try` is swallowed, so a failure shows as
    `undefined`, never as an error. */
module Params {
  import opened Optional
  import opened JsStrings
  import opened JsValues

  /** A parameter descriptor as the spec declares it: `in`, `name`, and the
      optional `type`, `format` and `collectionFormat` (`None` when absent). */
  datatype Param = Param(
    name: string,
    location: string,
    kind: Option<string>,
    format: Option<string>,
    collectionFormat: Option<string>)

  /** The host's date-string parser behind `new Date(string)`: the time value,
      or `None` for an invalid date. */
  type DateParser = string -> Option<int>

  /** `param.collectionFormat` is truthy. */
  predicate HasCollectionFormat(p: Param) {
    p.collectionFormat.Some? && p.collectionFormat.value != ""
  }

  /** The separator `extract` splits on for `csv`, `tsv` and `ssv`. */
  function Separator(format: string): (sep: Option<char>)
    ensures sep.Some? <==> format in {"csv", "tsv", "ssv"}
  {
    if format == "csv" then Some(',')
    else if format == "tsv" then Some('\t')
    else if format == "ssv" then Some(' ')
    else None
  }

  /** `extractOne(param, value)`: integers through `parseInt`, booleans from
      `"true"`/`true` and `"false"`/`false`, `date-time` strings through
      `new Date`; every other value comes back unchanged. A TypeError while
      converting an object is reported as `undefined`, which is what the
      caller's `try` makes of it. */
  function ExtractOne(p: Param, raw: Json, parseDate: DateParser): (r: Value)
    ensures p.kind == Some("integer") ==> r.Num? || r.Undefined?
    ensures p.kind == Some("boolean") ==> r.Bool? || r.Undefined?
    ensures r.Undefined? ==> p.kind in {Some("integer"), Some("boolean"), Some("string")}
  {
    if p.kind == Some("integer") then
      match ParseIntOf(raw)
      case None => Undefined
      case Some(n) => Num(n)
    else if p.kind == Some("boolean") then
      if raw == JStr("true") || raw == JBool(true) then Bool(true)
      else if raw == JStr("false") || raw == JBool(false) then Bool(false)
      else Undefined
    else if p.kind == Some("string") && p.format == Some("date-time") then
      match DateTime(raw, parseDate)
      case None => Undefined
      case Some(t) => Date(t)
    else Embed(raw)
  }

  /** The values of `vs` other than `undefined`, in order: what the `push`
      guarded by `typeof val !== "undefined"` collects. */
  function KeepDefined(vs: seq<Value>): (out: seq<Value>)
    ensures |out| <= |vs|
    ensures forall i :: 0 <= i < |out| ==> !out[i].Undefined?
    ensures forall v :: v in out ==> v in vs
  {
    if |vs| == 0 then []
    else (if vs[0].Undefined? then [] else [vs[0]]) + KeepDefined(vs[1..])
  }

  /** What the `forEach` callback computes for one part: `extractOne` of the
      trimmed part. */
  function CoercePart(p: Param, parseDate: DateParser): string -> Value {
    part => ExtractOne(p, JStr(Trim(part)), parseDate)
  }

  /** `f` applied to each part, in part order. */
  function Each(f: string -> Value, parts: seq<string>): (vs: seq<Value>)
    ensures |vs| == |parts|
    decreases |parts|
  {
    if |parts| == 0 then []
    else Each(f, parts[..|parts| - 1]) + [f(parts[|parts| - 1])]
  }

  /** The `forEach` of the `csv`/`tsv`/`ssv` branches: each part is trimmed and
      coerced, and only the defined results are kept, in order. */
  function CoerceParts(p: Param, parts: seq<string>, parseDate: DateParser): (out: seq<Value>)
    ensures |out| <= |parts|
    ensures forall i :: 0 <= i < |out| ==> !out[i].Undefined?
  {
    KeepDefined(Each(CoercePart(p, parseDate), parts))
  }

  /** `extract(param, source)`. */
  function Extract(p: Param, source: map<string, Json>, parseDate: DateParser): (r: Value)
    ensures p.name !in source ==> r == Undefined
    ensures HasCollectionFormat(p) ==> r.Undefined? || r.Arr?
  {
    if p.name !in source then Undefined
    else
      var raw := source[p.name];
      if !HasCollectionFormat(p) then ExtractOne(p, raw, parseDate)
      else
        match Separator(p.collectionFormat.value)
        case Some(sep) =>
          // `value.split` is not a function on anything but a string
          if raw.JStr? then Arr(CoerceParts(p, Split(raw.s, sep), parseDate)) else Undefined
        case None =>
          // the callback refers to an unbound `part`: a ReferenceError on the first element
          if raw.JArr? && |raw.items| > 0 then Undefined else Arr([])
  }

  // ---------------------------------------------------------------------
  // single values
  // ---------------------------------------------------------------------

  /** Without a collection format, an `integer` parameter is `parseInt` of
      its value, or `undefined` when that is `NaN`. */
  lemma IntegerCoercion(p: Param, source: map<string, Json>, parseDate: DateParser)
    requires p.kind == Some("integer") && !HasCollectionFormat(p) && p.name in source
    ensures ParseIntOf(source[p.name]).None? ==> Extract(p, source, parseDate) == Undefined
    ensures ParseIntOf(source[p.name]).Some? ==>
      Extract(p, source, parseDate) == Num(ParseIntOf(source[p.name]).value)
  {
  }

  /** An integer written in decimal, as a string or as a JSON number, comes
      back as that integer. */
  lemma IntegerRoundTrip(p: Param, n: int, parseDate: DateParser)
    requires p.kind == Some("integer") && !HasCollectionFormat(p)
    ensures Extract(p, map[p.name := JStr(IntToString(n))], parseDate) == Num(n)
    ensures Extract(p, map[p.name := JNum(n)], parseDate) == Num(n)
  {
    ParseIntToString(n);
    ParseIntOfNumber(n);
  }

  /** `"bad!"` is no integer: the parameter is `undefined`. */
  lemma MalformedIntegerIsUndefined(p: Param, parseDate: DateParser)
    requires p.kind == Some("integer") && !HasCollectionFormat(p)
    ensures Extract(p, map[p.name := JStr("bad!")], parseDate) == Undefined
  {
    ParseIntNoDigits("bad!");
    assert ParseIntOf(JStr("bad!")).None?;
  }

  /** A `boolean` parameter is `true` exactly for `"true"` and `true`, `false`
      exactly for `"false"` and `false`, and `undefined` for anything else. */
  lemma BooleanCoercion(p: Param, source: map<string, Json>, parseDate: DateParser)
    requires p.kind == Some("boolean") && !HasCollectionFormat(p) && p.name in source
    ensures Extract(p, source, parseDate) == Bool(true) <==>
      source[p.name] in {JStr("true"), JBool(true)}
    ensures Extract(p, source, parseDate) == Bool(false) <==>
      source[p.name] in {JStr("false"), JBool(false)}
    ensures Extract(p, source, parseDate) in {Bool(true), Bool(false), Undefined}
  {
  }

  /** A `date-time` string parameter is the parsed date, or `undefined` when
      the date is invalid. */
  lemma DateTimeCoercion(p: Param, source: map<string, Json>, parseDate: DateParser)
    requires p.kind == Some("string") && p.format == Some("date-time")
    requires !HasCollectionFormat(p) && p.name in source
    ensures Extract(p, source, parseDate).Date? <==> DateTime(source[p.name], parseDate).Some?
    ensures Extract(p, source, parseDate).Undefined? <==> DateTime(source[p.name], parseDate).None?
    ensures source[p.name].JStr? && parseDate(source[p.name].s).Some? ==>
      Extract(p, source, parseDate) == Date(parseDate(source[p.name].s).value)
  {
  }

  /** Any other string parameter, and any parameter of another or no type, is
      its raw value unchanged, arrays and surrounding white space included. */
  lemma OtherTypesUnchanged(p: Param, source: map<string, Json>, parseDate: DateParser)
    requires p.kind !in {Some("integer"), Some("boolean")}
    requires !(p.kind == Some("string") && p.format == Some("date-time"))
    requires !HasCollectionFormat(p) && p.name in source
    ensures Extract(p, source, parseDate) == Embed(source[p.name])
  {
  }

  // ---------------------------------------------------------------------
  // collections
  // ---------------------------------------------------------------------

  /** Nothing is dropped when nothing is `undefined`. */
  lemma {:induction false} KeepDefinedAll(vs: seq<Value>)
    requires forall i :: 0 <= i < |vs| ==> !vs[i].Undefined?
    ensures KeepDefined(vs) == vs
  {
    if |vs| > 0 {
      KeepDefinedAll(vs[1..]);
      assert [vs[0]] + vs[1..] == vs;
    }
  }

  /** An `undefined` element is dropped, so the result is strictly shorter. */
  lemma {:induction false} KeepDefinedDrops(vs: seq<Value>, i: int)
    requires 0 <= i < |vs| && vs[i].Undefined?
    ensures |KeepDefined(vs)| < |vs|
  {
    if i > 0 {
      KeepDefinedDrops(vs[1..], i - 1);
    }
  }

  /** For `csv`, `tsv` and `ssv`, when every trimmed part coerces, the array has
      one element per part: the coercion of that part. */
  lemma CoercePartsAllDefined(p: Param, parts: seq<string>, parseDate: DateParser)
    requires forall i :: 0 <= i < |parts| ==> !ExtractOne(p, JStr(Trim(parts[i])), parseDate).Undefined?
    ensures |CoerceParts(p, parts, parseDate)| == |parts|
    ensures forall i :: 0 <= i < |parts| ==>
      CoerceParts(p, parts, parseDate)[i] == ExtractOne(p, JStr(Trim(parts[i])), parseDate)
  {
    var vs := Each(CoercePart(p, parseDate), parts);
    forall i | 0 <= i < |parts|
      ensures vs[i] == ExtractOne(p, JStr(Trim(parts[i])), parseDate)
    {
      CoercedAt(p, parts, parseDate, i);
    }
    KeepDefinedAll(vs);
  }

  /** `KeepDefined` distributes over concatenation: the values kept from
      `a + b` are those kept from `a`, in order, followed by those kept from
      `b`. */
  lemma {:induction false} KeepDefinedConcat(a: seq<Value>, b: seq<Value>)
    ensures KeepDefined(a + b) == KeepDefined(a) + KeepDefined(b)
  {
    if |a| == 0 {
      assert a + b == b;
    } else {
      var ab := a + b;
      var head := if a[0].Undefined? then [] else [a[0]];
      assert ab[0] == a[0] && ab[1..] == a[1..] + b;
      KeepDefinedConcat(a[1..], b);
      calc {
        KeepDefined(ab);
        head + KeepDefined(a[1..] + b);
        head + (KeepDefined(a[1..]) + KeepDefined(b));
        (head + KeepDefined(a[1..])) + KeepDefined(b);
      }
    }
  }

  /** The `push` of one more value: it is appended when defined, and nothing
      changes when it is `undefined`. */
  lemma KeepDefinedSnoc(vs: seq<Value>, v: Value)
    ensures KeepDefined(vs + [v]) == KeepDefined(vs) + (if v.Undefined? then [] else [v])
  {
    KeepDefinedConcat(vs, [v]);
    assert [v][1..] == [];
    assert KeepDefined([v]) == (if v.Undefined? then [] else [v]) + KeepDefined([]);
    assert KeepDefined([v]) == (if v.Undefined? then [] else [v]);
  }

  /** Removing an `undefined` value changes nothing: what is kept around it
      is what is kept from the values before it followed by what is kept
      from the values after it. */
  lemma KeepDefinedDropsAt(vs: seq<Value>, i: int)
    requires 0 <= i < |vs| && vs[i].Undefined?
    ensures KeepDefined(vs) == KeepDefined(vs[..i]) + KeepDefined(vs[i + 1..])
  {
    var before, after := vs[..i], vs[i + 1..];
    assert vs == (before + [vs[i]]) + after;
    KeepDefinedConcat(before + [vs[i]], after);
    KeepDefinedSnoc(before, vs[i]);
    assert KeepDefined(before + [vs[i]]) == KeepDefined(before);
  }

  /** Element `i` of the mapped parts is `f` of part `i`. */
  lemma {:induction false} EachAt(f: string -> Value, parts: seq<string>, i: int)
    requires 0 <= i < |parts|
    ensures Each(f, parts)[i] == f(parts[i])
  {
    var n := |parts| - 1;
    if i < n {
      EachAt(f, parts[..n], i);
      assert parts[..n][i] == parts[i];
    }
  }

  /** Mapping over `a + b` maps over `a`, then over `b`. */
  lemma {:induction false} EachConcat(f: string -> Value, a: seq<string>, b: seq<string>)
    ensures Each(f, a + b) == Each(f, a) + Each(f, b)
    decreases |b|
  {
    if |b| == 0 {
      assert a + b == a;
    } else {
      var n := |b| - 1;
      EachConcat(f, a, b[..n]);
      assert (a + b)[..|a + b| - 1] == a + b[..n];
      assert (a + b)[|a + b| - 1] == b[n];
      calc {
        Each(f, a + b);
        Each(f, a + b[..n]) + [f(b[n])];
        (Each(f, a) + Each(f, b[..n])) + [f(b[n])];
        Each(f, a) + (Each(f, b[..n]) + [f(b[n])]);
      }
    }
  }

  /** Mapping commutes with cutting the parts around position `i`. */
  lemma EachSlices(f: string -> Value, parts: seq<string>, i: int)
    requires 0 <= i < |parts|
    ensures Each(f, parts)[..i] == Each(f, parts[..i])
    ensures Each(f, parts)[i + 1..] == Each(f, parts[i + 1..])
  {
    var before, rest, after := parts[..i], parts[i..], parts[i + 1..];
    assert parts == before + rest;
    assert rest == [parts[i]] + after;
    EachConcat(f, before, rest);
    EachConcat(f, [parts[i]], after);
    var all, head, tail := Each(f, parts), Each(f, before), Each(f, rest);
    assert all == head + tail && |head| == i;
    assert all[..i] == head;
    assert tail[1..] == Each(f, after);
    assert all[i + 1..] == tail[1..];
  }

  /** Keeping the defined values of `f` over one more part adds `f` of that
      part at the end when it is defined, and nothing otherwise. */
  lemma KeptSnoc(f: string -> Value, parts: seq<string>, q: string)
    ensures KeepDefined(Each(f, parts + [q])) ==
      KeepDefined(Each(f, parts)) + (if f(q).Undefined? then [] else [f(q)])
  {
    assert (parts + [q])[..|parts|] == parts;
    assert Each(f, parts + [q]) == Each(f, parts) + [f(q)];
    KeepDefinedSnoc(Each(f, parts), f(q));
  }

  /** Keeping the defined values of `f` over `a + b` keeps those over `a`,
      then those over `b`. */
  lemma KeptConcat(f: string -> Value, a: seq<string>, b: seq<string>)
    ensures KeepDefined(Each(f, a + b)) == KeepDefined(Each(f, a)) + KeepDefined(Each(f, b))
  {
    EachConcat(f, a, b);
    KeepDefinedConcat(Each(f, a), Each(f, b));
  }

  /** A part on which `f` is `undefined` contributes nothing: what is kept is
      what is kept from the parts before it followed by what is kept from the
      parts after it. */
  lemma KeptDropsAt(f: string -> Value, parts: seq<string>, i: int)
    requires 0 <= i < |parts| && f(parts[i]).Undefined?
    ensures KeepDefined(Each(f, parts)) ==
      KeepDefined(Each(f, parts[..i])) + KeepDefined(Each(f, parts[i + 1..]))
  {
    EachSlices(f, parts, i);
    EachAt(f, parts, i);
    KeepDefinedDropsAt(Each(f, parts), i);
  }

  /** When `f` is defined on every part and gives `vs`, all of `vs` is kept. */
  lemma KeptAll(f: string -> Value, parts: seq<string>, vs: seq<Value>)
    requires |vs| == |parts|
    requires forall i :: 0 <= i < |parts| ==> f(parts[i]) == vs[i] && !vs[i].Undefined?
    ensures KeepDefined(Each(f, parts)) == vs
  {
    forall i | 0 <= i < |parts|
      ensures Each(f, parts)[i] == vs[i]
    {
      EachAt(f, parts, i);
    }
    assert Each(f, parts) == vs;
    KeepDefinedAll(vs);
  }

  /** Element `i` of the coercions is the coercion of part `i`. */
  lemma CoercedAt(p: Param, parts: seq<string>, parseDate: DateParser, i: int)
    requires 0 <= i < |parts|
    ensures Each(CoercePart(p, parseDate), parts)[i] == ExtractOne(p, JStr(Trim(parts[i])), parseDate)
  {
    EachAt(CoercePart(p, parseDate), parts, i);
  }

  /** The parts of `a + b` contribute the array of `a` followed by the array
      of `b`. */
  lemma CoercePartsConcat(p: Param, a: seq<string>, b: seq<string>, parseDate: DateParser)
    ensures CoerceParts(p, a + b, parseDate) == CoerceParts(p, a, parseDate) + CoerceParts(p, b, parseDate)
  {
    KeptConcat(CoercePart(p, parseDate), a, b);
  }

  /** One more part adds its coercion at the end of the array when that is
      defined, and nothing otherwise. */
  lemma CoercePartsSnoc(p: Param, parts: seq<string>, q: string, parseDate: DateParser)
    ensures var v := ExtractOne(p, JStr(Trim(q)), parseDate);
      CoerceParts(p, parts + [q], parseDate) == CoerceParts(p, parts, parseDate) + (if v.Undefined? then [] else [v])
  {
    KeptSnoc(CoercePart(p, parseDate), parts, q);
  }

  /** A part that fails to coerce is the one dropped: the array is that of the
      parts before it followed by that of the parts after it, so it is shorter
      than the list of parts. */
  lemma CoercePartsDropsFailures(p: Param, parts: seq<string>, parseDate: DateParser, i: int)
    requires 0 <= i < |parts| && ExtractOne(p, JStr(Trim(parts[i])), parseDate).Undefined?
    ensures CoerceParts(p, parts, parseDate) ==
      CoerceParts(p, parts[..i], parseDate) + CoerceParts(p, parts[i + 1..], parseDate)
    ensures |CoerceParts(p, parts, parseDate)| < |parts|
  {
    KeptDropsAt(CoercePart(p, parseDate), parts, i);
  }

  /** With `csv`, `tsv` or `ssv`, a string value is split on the format's
      separator and coerced part by part; any other value makes `split` throw,
      and the parameter is `undefined`. */
  lemma SplitFormats(p: Param, source: map<string, Json>, parseDate: DateParser)
    requires HasCollectionFormat(p) && p.name in source
    requires Separator(p.collectionFormat.value).Some?
    ensures var sep := Separator(p.collectionFormat.value).value;
      source[p.name].JStr? ==>
        Extract(p, source, parseDate) == Arr(CoerceParts(p, Split(source[p.name].s, sep), parseDate))
    ensures !source[p.name].JStr? ==> Extract(p, source, parseDate) == Undefined
  {
  }

  /** `SplitFormats` for a source holding only the parameter's string. */
  lemma SplitFormatsOn(p: Param, s: string, parseDate: DateParser)
    requires HasCollectionFormat(p) && Separator(p.collectionFormat.value).Some?
    ensures Extract(p, map[p.name := JStr(s)], parseDate) ==
      Arr(CoerceParts(p, Split(s, Separator(p.collectionFormat.value).value), parseDate))
  {
    SplitFormats(p, map[p.name := JStr(s)], parseDate);
  }

  /** With any other collection format, a non-array or an empty array gives
      `[]` and a non-empty array gives `undefined`. */
  lemma OtherCollectionFormats(p: Param, source: map<string, Json>, parseDate: DateParser)
    requires HasCollectionFormat(p) && p.name in source
    requires Separator(p.collectionFormat.value).None?
    ensures (!source[p.name].JArr? || source[p.name].items == []) ==> Extract(p, source, parseDate) == Arr([])
    ensures (source[p.name].JArr? && source[p.name].items != []) ==> Extract(p, source, parseDate) == Undefined
  {
  }

  /** The decimal renderings of a list of integers. */
  function Decimals(ns: seq<int>): (ds: seq<string>)
    ensures |ds| == |ns|
    ensures forall i :: 0 <= i < |ns| ==> ds[i] == IntToString(ns[i])
  {
    seq(|ns|, i requires 0 <= i < |ns| => IntToString(ns[i]))
  }

  /** A decimal rendering has no separator character and no white space at
      either end. */
  lemma DecimalShape(n: int)
    ensures ',' !in IntToString(n) && '\t' !in IntToString(n) && ' ' !in IntToString(n)
    ensures Trim(IntToString(n)) == IntToString(n)
  {
    var s := IntToString(n);
    var u := NatToString(if n < 0 then -n else n);
    assert n < 0 ==> s == "-" + u;
    assert forall c :: c in s ==> c == '-' || IsDecimalDigit(c);
    TrimUnpadded(s);
  }

  /** One integer part coerces to itself. */
  lemma IntegerPart(p: Param, n: int, parseDate: DateParser)
    requires p.kind == Some("integer")
    ensures ExtractOne(p, JStr(IntToString(n)), parseDate) == Num(n)
  {
    ParseIntToString(n);
    assert ParseIntOf(JStr(IntToString(n))) == Some(n);
  }

  /** Decimal renderings of integers coerce back to the integers. */
  lemma IntegerParts(p: Param, ns: seq<int>, parseDate: DateParser)
    requires p.kind == Some("integer")
    ensures CoerceParts(p, Decimals(ns), parseDate) == seq(|ns|, i requires 0 <= i < |ns| => Num(ns[i]))
  {
    var ds := Decimals(ns);
    var vs := seq(|ns|, i requires 0 <= i < |ns| => Num(ns[i]));
    var f := CoercePart(p, parseDate);
    forall i | 0 <= i < |ds|
      ensures f(ds[i]) == vs[i] && !vs[i].Undefined?
    {
      DecimalShape(ns[i]);
      IntegerPart(p, ns[i], parseDate);
    }
    KeptAll(f, ds, vs);
  }

  /** Decimal renderings joined with a separator split back into themselves. */
  lemma DecimalsSplit(ns: seq<int>, sep: char)
    requires sep in {',', '\t', ' '} && |ns| >= 1
    ensures Split(Join(Decimals(ns), sep), sep) == Decimals(ns)
  {
    var ds := Decimals(ns);
    forall i | 0 <= i < |ds|
      ensures sep !in ds[i]
    {
      DecimalShape(ns[i]);
    }
    SplitJoin(ds, sep);
  }

  /** The empty string is no integer: it coerces to `undefined`. */
  lemma EmptyIntegerPart(p: Param, parseDate: DateParser)
    requires p.kind == Some("integer")
    ensures ExtractOne(p, JStr(Trim("")), parseDate) == Undefined
  {
    assert Trim("") == "";
    assert ParseInt("").None?;
  }

  /** Integers joined with a separator split and coerce back to themselves;
      the empty list joins to `""`, whose single empty part is dropped. */
  lemma JoinedIntegersCoerce(p: Param, ns: seq<int>, sep: char, parseDate: DateParser)
    requires p.kind == Some("integer") && sep in {',', '\t', ' '}
    ensures CoerceParts(p, Split(Join(Decimals(ns), sep), sep), parseDate) ==
      seq(|ns|, i requires 0 <= i < |ns| => Num(ns[i]))
  {
    if |ns| == 0 {
      assert Join(Decimals(ns), sep) == "";
      assert Split("", sep) == [""];
      EmptyIntegerPart(p, parseDate);
      CoercePartsDropsFailures(p, [""], parseDate, 0);
      assert [""][..0] == [] && [""][1..] == [];
    } else {
      DecimalsSplit(ns, sep);
      IntegerParts(p, ns, parseDate);
    }
  }

  /** A list of integers joined with the format's separator reads back as the
      same list: `csv`, `tsv` and `ssv` round-trip integer arrays. The empty
      list joins to `""`, whose single empty part is no integer, so it comes
      back empty. */
  lemma CollectionIntegerRoundTrip(p: Param, ns: seq<int>, parseDate: DateParser)
    requires p.kind == Some("integer") && HasCollectionFormat(p)
    requires Separator(p.collectionFormat.value).Some?
    ensures var sep := Separator(p.collectionFormat.value).value;
      Extract(p, map[p.name := JStr(Join(Decimals(ns), sep))], parseDate) ==
        Arr(seq(|ns|, i requires 0 <= i < |ns| => Num(ns[i])))
  {
    var sep := Separator(p.collectionFormat.value).value;
    SplitFormatsOn(p, Join(Decimals(ns), sep), parseDate);
    JoinedIntegersCoerce(p, ns, sep, parseDate);
  }

  /** A date string the host accepts coerces to its date. */
  lemma DateString(p: Param, d: string, parseDate: DateParser)
    requires p.kind == Some("string") && p.format == Some("date-time")
    requires parseDate(d).Some?
    ensures ExtractOne(p, JStr(d), parseDate) == Date(parseDate(d).value)
  {
  }

  /** A trimmed date part coerces to its date. */
  lemma DatePart(p: Param, d: string, parseDate: DateParser)
    requires p.kind == Some("string") && p.format == Some("date-time")
    requires parseDate(d).Some? && Trim(d) == d
    ensures ExtractOne(p, JStr(Trim(d)), parseDate) == Date(parseDate(d).value)
  {
    DateString(p, d, parseDate);
  }

  /** Three tab-free pieces each followed by a tab split into four parts, the
      last one empty. */
  lemma SplitTrailingTab(d1: string, d2: string, d3: string)
    requires '\t' !in d1 && '\t' !in d2 && '\t' !in d3
    ensures Split(d1 + "\t" + d2 + "\t" + d3 + "\t", '\t') == [d1, d2, d3, ""]
  {
    var parts := [d1, d2, d3, ""];
    assert parts[1..] == [d2, d3, ""] && parts[1..][1..] == [d3, ""] && parts[1..][1..][1..] == [""];
    assert Join([d3, ""], '\t') == d3 + "\t";
    assert Join([d2, d3, ""], '\t') == d2 + "\t" + (d3 + "\t");
    assert Join(parts, '\t') == d1 + "\t" + (d2 + "\t" + (d3 + "\t"));
    assert d1 + "\t" + (d2 + "\t" + (d3 + "\t")) == d1 + "\t" + d2 + "\t" + d3 + "\t";
    SplitJoin(parts, '\t');
  }

  /** An empty part is no valid date: it coerces to `undefined`. */
  lemma EmptyDatePart(p: Param, parseDate: DateParser)
    requires p.kind == Some("string") && p.format == Some("date-time")
    requires parseDate("").None?
    ensures ExtractOne(p, JStr(Trim("")), parseDate) == Undefined
  {
    assert Trim("") == "";
  }

  /** Three good dates coerce to the three dates. */
  lemma CoerceDates(p: Param, d1: string, d2: string, d3: string, parseDate: DateParser)
    requires p.kind == Some("string") && p.format == Some("date-time")
    requires parseDate(d1).Some? && Trim(d1) == d1
    requires parseDate(d2).Some? && Trim(d2) == d2
    requires parseDate(d3).Some? && Trim(d3) == d3
    ensures CoerceParts(p, [d1, d2, d3], parseDate) ==
      [Date(parseDate(d1).value), Date(parseDate(d2).value), Date(parseDate(d3).value)]
  {
    var f := CoercePart(p, parseDate);
    var ds := [d1, d2, d3];
    var dates := [Date(parseDate(d1).value), Date(parseDate(d2).value), Date(parseDate(d3).value)];
    forall i | 0 <= i < 3
      ensures f(ds[i]) == dates[i] && !dates[i].Undefined?
    {
      if i == 0 {
        DatePart(p, d1, parseDate);
      } else if i == 1 {
        DatePart(p, d2, parseDate);
      } else {
        DatePart(p, d3, parseDate);
      }
    }
    KeptAll(f, ds, dates);
  }

  /** Three good dates and an empty part coerce to the three dates. */
  lemma CoerceDatesAndEmpty(p: Param, d1: string, d2: string, d3: string, parseDate: DateParser)
    requires p.kind == Some("string") && p.format == Some("date-time")
    requires parseDate(d1).Some? && Trim(d1) == d1
    requires parseDate(d2).Some? && Trim(d2) == d2
    requires parseDate(d3).Some? && Trim(d3) == d3
    requires parseDate("").None?
    ensures CoerceParts(p, [d1, d2, d3, ""], parseDate) ==
      [Date(parseDate(d1).value), Date(parseDate(d2).value), Date(parseDate(d3).value)]
  {
    EmptyDatePart(p, parseDate);
    CoercePartsSnoc(p, [d1, d2, d3], "", parseDate);
    assert [d1, d2, d3] + [""] == [d1, d2, d3, ""];
    CoerceDates(p, d1, d2, d3, parseDate);
  }

  /** A `tsv` list of dates with a trailing tab has four parts but gives three
      dates: the empty last part is no valid date and is dropped. */
  lemma TrailingTabDropsEmptyPart(p: Param, d1: string, d2: string, d3: string, parseDate: DateParser)
    requires p.kind == Some("string") && p.format == Some("date-time")
    requires p.collectionFormat == Some("tsv")
    requires '\t' !in d1 && '\t' !in d2 && '\t' !in d3
    requires parseDate(d1).Some? && Trim(d1) == d1
    requires parseDate(d2).Some? && Trim(d2) == d2
    requires parseDate(d3).Some? && Trim(d3) == d3
    requires parseDate("").None?
    ensures |Split(d1 + "\t" + d2 + "\t" + d3 + "\t", '\t')| == 4
    ensures Extract(p, map[p.name := JStr(d1 + "\t" + d2 + "\t" + d3 + "\t")], parseDate) ==
      Arr([Date(parseDate(d1).value), Date(parseDate(d2).value), Date(parseDate(d3).value)])
  {
    var s := d1 + "\t" + d2 + "\t" + d3 + "\t";
    assert HasCollectionFormat(p) && Separator(p.collectionFormat.value) == Some('\t');
    SplitTrailingTab(d1, d2, d3);
    SplitFormatsOn(p, s, parseDate);
    CoerceDatesAndEmpty(p, d1, d2, d3, parseDate);
  }

  /** An `undefined` appended at the end is dropped. */
  lemma {:induction false} KeepDefinedAppendUndefined(vs: seq<Value>)
    ensures KeepDefined(vs + [Undefined]) == KeepDefined(vs)
  {
    if |vs| == 0 {
      assert KeepDefined([Undefined]) == [] + KeepDefined([]);
    } else {
      KeepDefinedAppendUndefined(vs[1..]);
      assert (vs + [Undefined])[1..] == vs[1..] + [Undefined];
    }
  }
}
