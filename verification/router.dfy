/** The route table and path matcher of `src/router.js` (the same code is
    repeated in `index.js`). A route table lists the templates of the spec's
    path map in key order; a request path selects a template either by being
    string-equal to it or by binding at least one `{name}` segment. Literal
    segments are never compared. */
module Router {
  import opened Optional
  import opened JsStrings

  /** One entry of `routePaths`: the template, its `/`-separated segments and
      the path item the spec's path map holds for it. */
  datatype RoutePath<Op> = RoutePath(path: string, parts: seq<string>, operation: Op)

  /** What `lookup` returns when it finds something: the path item and the
      bound path variables. */
  datatype Match<Op> = Match(value: Op, params: map<string, string>)

  /** `compilePaths`: one route per key of the path map, in key order. The path
      map is given as its key/value pairs in `Object.keys` order. */
  function CompilePaths<Op>(paths: seq<(string, Op)>): (table: seq<RoutePath<Op>>)
    ensures |table| == |paths|
    ensures forall i :: 0 <= i < |paths| ==>
      table[i].path == paths[i].0 && table[i].operation == paths[i].1
    ensures forall i :: 0 <= i < |paths| ==> table[i].parts == Split(paths[i].0, '/')
  {
    seq(|paths|, i requires 0 <= i < |paths| =>
      RoutePath(paths[i].0, Split(paths[i].0, '/'), paths[i].1))
  }

  /** Every compiled route's segments, joined with `/`, give back its template,
      and no segment contains a `/`. */
  lemma CompiledPartsRejoin<Op>(paths: seq<(string, Op)>, i: int)
    requires 0 <= i < |paths|
    ensures Join(CompilePaths(paths)[i].parts, '/') == paths[i].0
    ensures forall k :: 0 <= k < |CompilePaths(paths)[i].parts| ==>
      '/' !in CompilePaths(paths)[i].parts[k]
  {
    JoinSplit(paths[i].0, '/');
  }

  // ---------------------------------------------------------------------
  // extractFromPath
  // ---------------------------------------------------------------------

  /** `part.match(/\{.*\}/)`: some `{` is followed later in the segment by a
      `}`, with no line terminator in between (`.` does not match one). The
      braces need not open or close the segment. */
  predicate IsVariable(part: string) {
    |part| > 0 && ((part[0] == '{' && ClosesBeforeBreak(part[1..])) || IsVariable(part[1..]))
  }

  /** A `}` occurs in `s` before any line terminator. */
  predicate ClosesBeforeBreak(s: string) {
    |s| > 0 && (s[0] == '}' || (!IsLineTerminator(s[0]) && ClosesBeforeBreak(s[1..])))
  }

  /** The regular-expression reading of `IsVariable`: an opening brace at `i`
      and a closing brace at `j`, and only non-terminators between them. */
  ghost predicate BracePair(part: string, i: int, j: int) {
    0 <= i < j < |part| && part[i] == '{' && part[j] == '}' &&
    forall k :: i < k < j ==> !IsLineTerminator(part[k])
  }

  lemma {:induction false} ClosesBeforeBreakIff(s: string)
    ensures ClosesBeforeBreak(s) <==>
      exists j :: 0 <= j < |s| && s[j] == '}' && forall k :: 0 <= k < j ==> !IsLineTerminator(s[k])
  {
    if |s| > 0 {
      ClosesBeforeBreakIff(s[1..]);
      if ClosesBeforeBreak(s) && s[0] != '}' {
        var j :| 0 <= j < |s[1..]| && s[1..][j] == '}' &&
          forall k :: 0 <= k < j ==> !IsLineTerminator(s[1..][k]);
        assert s[j + 1] == '}';
        assert forall k :: 0 <= k < j + 1 ==> !IsLineTerminator(s[k]) by {
          forall k | 0 <= k < j + 1
            ensures !IsLineTerminator(s[k])
          {
            if k > 0 {
              assert s[k] == s[1..][k - 1];
            }
          }
        }
      }
      if !ClosesBeforeBreak(s) {
        forall j | 0 <= j < |s| && s[j] == '}'
          ensures exists k :: 0 <= k < j && IsLineTerminator(s[k])
        {
          assert j > 0;
          assert s[1..][j - 1] == '}';
          if IsLineTerminator(s[0]) {
            assert 0 < j;
          } else {
            var k :| 0 <= k < j - 1 && IsLineTerminator(s[1..][k]);
            assert IsLineTerminator(s[k + 1]);
          }
        }
      }
    }
  }

  /** `IsVariable` holds exactly when the segment has a brace pair with no
      line terminator inside, which is what `/\{.*\}/` looks for. */
  lemma {:induction false} IsVariableIff(part: string)
    ensures IsVariable(part) <==> exists i, j :: BracePair(part, i, j)
  {
    if |part| > 0 {
      IsVariableIff(part[1..]);
      ClosesBeforeBreakIff(part[1..]);
      if IsVariable(part) {
        if part[0] == '{' && ClosesBeforeBreak(part[1..]) {
          var j :| 0 <= j < |part[1..]| && part[1..][j] == '}' &&
            forall k :: 0 <= k < j ==> !IsLineTerminator(part[1..][k]);
          assert BracePair(part, 0, j + 1);
        } else {
          var i, j :| BracePair(part[1..], i, j);
          assert BracePair(part, i + 1, j + 1);
        }
      }
      if exists i, j :: BracePair(part, i, j) {
        var i, j :| BracePair(part, i, j);
        if i == 0 {
          assert part[1..][j - 1] == '}';
          assert forall k :: 0 <= k < j - 1 ==> part[1..][k] == part[k + 1];
        } else {
          assert BracePair(part[1..], i - 1, j - 1);
        }
      }
    }
  }

  /** `part.slice(1, -1)`: the segment without its first and last character. */
  function VarName(part: string): (name: string)
    ensures |part| >= 2 ==> |name| == |part| - 2 && part == [part[0]] + name + [part[|part| - 1]]
    ensures |part| < 2 ==> name == ""
  {
    if |part| >= 2 then part[1..|part| - 1] else ""
  }

  /** Some variable segment of `t` is named `k`. */
  predicate Declares(t: seq<string>, k: string) {
    exists i :: 0 <= i < |t| && IsVariable(t[i]) && VarName(t[i]) == k
  }

  /** Segment `i` of the template is a variable and no later variable segment
      has the same name, so its binding is the one that survives. */
  predicate LastBinder(t: seq<string>, i: int)
    requires 0 <= i < |t|
  {
    forall j :: i < j < |t| && IsVariable(t[j]) ==> VarName(t[j]) != VarName(t[i])
  }

  /** The `reduce` of `extractFromPath` over segment lists of equal length:
      each variable segment binds its name to the value segment at the same
      index, later bindings overwriting earlier ones. */
  function Bind(t: seq<string>, v: seq<string>): map<string, string>
    requires |t| == |v|
    decreases |t|
  {
    if |t| == 0 then map[]
    else
      var m := Bind(t[..|t| - 1], v[..|v| - 1]);
      if IsVariable(t[|t| - 1]) then m[VarName(t[|t| - 1]) := v[|v| - 1]] else m
  }

  /** The names bound are exactly the names of the variable segments. */
  lemma {:induction false} BindKeys(t: seq<string>, v: seq<string>)
    requires |t| == |v|
    ensures forall k :: k in Bind(t, v) <==> Declares(t, k)
  {
    if |t| > 0 {
      var t', v' := t[..|t| - 1], v[..|v| - 1];
      BindKeys(t', v');
      forall k
        ensures k in Bind(t, v) <==> Declares(t, k)
      {
        if Declares(t', k) {
          var i :| 0 <= i < |t'| && IsVariable(t'[i]) && VarName(t'[i]) == k;
          assert t[i] == t'[i];
        }
        if Declares(t, k) {
          var i :| 0 <= i < |t| && IsVariable(t[i]) && VarName(t[i]) == k;
          if i < |t'| {
            assert t'[i] == t[i];
          }
        }
      }
    }
  }

  /** Each name is bound to the value segment under the last variable segment
      carrying that name. */
  lemma {:induction false} BindValues(t: seq<string>, v: seq<string>, i: int)
    requires |t| == |v|
    requires 0 <= i < |t| && IsVariable(t[i]) && LastBinder(t, i)
    ensures VarName(t[i]) in Bind(t, v) && Bind(t, v)[VarName(t[i])] == v[i]
  {
    var n := |t| - 1;
    if i < n {
      var t', v' := t[..n], v[..n];
      assert t'[i] == t[i];
      assert LastBinder(t', i) by {
        forall j | i < j < |t'| && IsVariable(t'[j])
          ensures VarName(t'[j]) != VarName(t'[i])
        {
          assert t'[j] == t[j];
        }
      }
      BindValues(t', v', i);
    }
  }

  /** `extractFromPath(template, value)`: no bindings at all when the two
      differ in segment count, otherwise the bindings of `Bind`. */
  function ExtractFromPath(template: string, value: string): (m: map<string, string>)
    ensures |Split(template, '/')| != |Split(value, '/')| ==> m == map[]
  {
    var t := Split(template, '/');
    var v := Split(value, '/');
    if |t| != |v| then map[] else Bind(t, v)
  }

  /** With equal segment counts, every variable segment of the template binds
      its name (the segment without its first and last character); the value
      kept for a repeated name is the one of its last occurrence. */
  lemma ExtractBindsVariables(template: string, value: string)
    requires |Split(template, '/')| == |Split(value, '/')|
    ensures forall k :: k in ExtractFromPath(template, value) <==> Declares(Split(template, '/'), k)
    ensures forall i :: (0 <= i < |Split(template, '/')| && IsVariable(Split(template, '/')[i]) &&
                         LastBinder(Split(template, '/'), i)) ==>
      VarName(Split(template, '/')[i]) in ExtractFromPath(template, value) &&
      ExtractFromPath(template, value)[VarName(Split(template, '/')[i])] == Split(value, '/')[i]
  {
    var t := Split(template, '/');
    var v := Split(value, '/');
    BindKeys(t, v);
    forall i | 0 <= i < |t| && IsVariable(t[i]) && LastBinder(t, i)
      ensures VarName(t[i]) in Bind(t, v) && Bind(t, v)[VarName(t[i])] == v[i]
    {
      BindValues(t, v, i);
    }
  }

  /** A template without a `{…}` segment binds nothing, whatever the path. */
  lemma NoVariableNoBindings(template: string, value: string)
    requires forall k :: 0 <= k < |Split(template, '/')| ==> !IsVariable(Split(template, '/')[k])
    ensures ExtractFromPath(template, value) == map[]
  {
    var t := Split(template, '/');
    if |t| == |Split(value, '/')| {
      BindKeys(t, Split(value, '/'));
      assert forall k :: !Declares(t, k);
    }
  }

  /** Literal segments are never compared: two paths that agree at the
      template's variable positions bind identically, whatever their other
      segments hold. */
  lemma {:induction false} BindIgnoresLiterals(t: seq<string>, v1: seq<string>, v2: seq<string>)
    requires |t| == |v1| == |v2|
    requires forall i :: 0 <= i < |t| && IsVariable(t[i]) ==> v1[i] == v2[i]
    ensures Bind(t, v1) == Bind(t, v2)
  {
    if |t| > 0 {
      BindIgnoresLiterals(t[..|t| - 1], v1[..|v1| - 1], v2[..|v2| - 1]);
    }
  }

  /** `/a/b` splits into an empty first segment, `a` and `b`. */
  lemma SplitTwoSegments(a: string, b: string)
    requires '/' !in a && '/' !in b
    ensures Split("/" + a + "/" + b, '/') == ["", a, b]
  {
    var t := ["", a, b];
    assert t[1..] == [a, b] && [a, b][1..] == [b];
    assert Join([a, b], '/') == a + "/" + b;
    assert Join(t, '/') == "" + "/" + (a + "/" + b);
    assert "" + "/" + (a + "/" + b) == "/" + a + "/" + b;
    SplitJoin(t, '/');
  }

  /** Literal segments are never compared: `/<lit1>/{name}` binds `name`
      against `/<lit2>/<val>` whatever the two literals are. */
  lemma LiteralSegmentsNotCompared(lit1: string, lit2: string, name: string, val: string)
    requires '/' !in lit1 && '/' !in lit2 && '/' !in name && '/' !in val
    requires !IsVariable(lit1)
    requires forall k :: 0 <= k < |name| ==> !IsLineTerminator(name[k])
    ensures ExtractFromPath("/" + lit1 + "/{" + name + "}", "/" + lit2 + "/" + val) == map[name := val]
  {
    var seg := "{" + name + "}";
    var t := ["", lit1, seg];
    var v := ["", lit2, val];
    SplitTwoSegments(lit1, seg);
    assert "/" + lit1 + "/" + seg == "/" + lit1 + "/{" + name + "}";
    SplitTwoSegments(lit2, val);
    assert IsVariable(seg) by {
      IsVariableIff(seg);
      assert BracePair(seg, 0, |name| + 1);
    }
    assert VarName(seg) == name;
    assert t[..2] == ["", lit1] && v[..2] == ["", lit2];
    assert ["", lit1][..1] == [""] && ["", lit2][..1] == [""];
    assert [""][..0] == [];
    assert Bind([""], [""]) == map[];
    assert Bind(["", lit1], ["", lit2]) == map[];
  }

  /** The concrete case: `/pets/{id}` binds `id` to `5` in `/cats/5`. */
  lemma PetsTemplateMatchesCats()
    ensures ExtractFromPath("/pets/{id}", "/cats/5") == map["id" := "5"]
  {
    assert !IsVariable("pets");
    LiteralSegmentsNotCompared("pets", "cats", "id", "5");
    assert "/" + "pets" + "/{" + "id" + "}" == "/pets/{id}";
    assert "/" + "cats" + "/" + "5" == "/cats/5";
  }

  // ---------------------------------------------------------------------
  // lookup
  // ---------------------------------------------------------------------

  /** The result `lookup` holds after its `forEach` has visited the routes of
      `table`: an exact string match (re)sets the operation with no bindings;
      while nothing is selected, a route whose `extractFromPath` is non-empty
      is selected with those bindings. */
  function Lookup<Op>(table: seq<RoutePath<Op>>, path: string): (r: Option<Match<Op>>)
    decreases |table|
  {
    if |table| == 0 then None
    else
      var before := Lookup(table[..|table| - 1], path);
      var route := table[|table| - 1];
      var exact := if path == route.path then Some(Match(route.operation, map[])) else before;
      if exact.Some? then exact
      else
        var p := ExtractFromPath(route.path, path);
        if |p| != 0 then Some(Match(route.operation, p)) else None
  }

  /** An exact string match always wins, with empty params, even when an
      earlier template already bound variables; `i` is the last route equal
      to the path (the keys of a path map are distinct, so it is the only one). */
  lemma {:induction false} ExactMatchWins<Op>(table: seq<RoutePath<Op>>, path: string, i: int)
    requires 0 <= i < |table| && table[i].path == path
    requires forall j :: i < j < |table| ==> table[j].path != path
    ensures Lookup(table, path) == Some(Match(table[i].operation, map[]))
  {
    if i < |table| - 1 {
      ExactMatchWins(table[..|table| - 1], path, i);
    }
  }

  /** With no exact match anywhere, the first route in table order whose
      bindings are non-empty is selected with those bindings; later routes
      never replace it. */
  lemma {:induction false} FirstBindingWins<Op>(table: seq<RoutePath<Op>>, path: string, i: int)
    requires 0 <= i < |table|
    requires forall j :: 0 <= j < |table| ==> table[j].path != path
    requires |ExtractFromPath(table[i].path, path)| != 0
    requires forall j :: 0 <= j < i ==> |ExtractFromPath(table[j].path, path)| == 0
    ensures Lookup(table, path) == Some(Match(table[i].operation, ExtractFromPath(table[i].path, path)))
  {
    if i < |table| - 1 {
      FirstBindingWins(table[..|table| - 1], path, i);
    } else {
      NothingBeforeFirst(table[..i], path);
    }
  }

  /** A prefix of the table with no exact match and no bindings selects nothing. */
  lemma {:induction false} NothingBeforeFirst<Op>(table: seq<RoutePath<Op>>, path: string)
    requires forall j :: 0 <= j < |table| ==>
      table[j].path != path && |ExtractFromPath(table[j].path, path)| == 0
    ensures Lookup(table, path) == None
  {
    if |table| > 0 {
      NothingBeforeFirst(table[..|table| - 1], path);
    }
  }

  /** `lookup` finds nothing exactly when no template equals the path and no
      template binds a variable of it. */
  lemma {:induction false} LookupMissIff<Op>(table: seq<RoutePath<Op>>, path: string)
    ensures Lookup(table, path).None? <==>
      forall j :: 0 <= j < |table| ==>
        table[j].path != path && |ExtractFromPath(table[j].path, path)| == 0
  {
    if |table| > 0 {
      var prefix := table[..|table| - 1];
      LookupMissIff(prefix, path);
      assert forall j :: 0 <= j < |prefix| ==> prefix[j] == table[j];
    }
  }

  /** Whatever `lookup` selects is the path item of some route of the table,
      with either empty bindings (an exact match) or that route's bindings. */
  lemma {:induction false} LookupFromTable<Op>(table: seq<RoutePath<Op>>, path: string)
    ensures Lookup(table, path).Some? ==>
      exists i :: 0 <= i < |table| && Lookup(table, path).value.value == table[i].operation &&
        ((table[i].path == path && Lookup(table, path).value.params == map[]) ||
         (Lookup(table, path).value.params == ExtractFromPath(table[i].path, path) &&
          |Lookup(table, path).value.params| > 0))
  {
    if |table| > 0 {
      var prefix := table[..|table| - 1];
      LookupFromTable(prefix, path);
      assert forall j :: 0 <= j < |prefix| ==> prefix[j] == table[j];
    }
  }
}
