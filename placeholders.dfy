/** `escape(query, inserts)` (db.js:25-42), installed as the driver's query
    formatter: every `?` of the template, left to right, takes the next
    insert off the front of `inserts`. An object insert after `WHERE` is
    compiled by `escape.WHERE`; everything else goes through `mysql.escape`.
    Once `inserts` is empty the remaining `?` stay as they are. Replacement
    text is never scanned again, and the `WHERE` test looks at the original
    template, not at the output built so far. */
module Placeholders {
  import opened Text
  import opened Values
  import Where

  /** The substituted text and the inserts left unconsumed. */
  datatype Resolved = Resolved(sql: string, rest: seq<Value>)

  function PrependSql(prefix: string, r: Result<Resolved>): (p: Result<Resolved>)
    ensures p.Err? <==> r.Err?
    ensures p.Ok? ==> p.value == Resolved(prefix + r.value.sql, r.value.rest)
    ensures p.Err? ==> p.fault == r.fault
  {
    match r
    case Ok(res) => Ok(Resolved(prefix + res.sql, res.rest))
    case Err(f) => Err(f)
  }

  lemma PrependSqlTwice(a: string, b: string, r: Result<Resolved>)
    ensures PrependSql(a, PrependSql(b, r)) == PrependSql(a + b, r)
  {
    if r.Ok? {
      assert a + (b + r.value.sql) == (a + b) + r.value.sql;
    }
  }

  lemma PrependSqlEmpty(r: Result<Resolved>)
    ensures PrependSql("", r) == r
  {
    if r.Ok? {
      assert "" + r.value.sql == r.value.sql;
    }
  }

  /** Whether the `?` at the end of `before` is compiled as a WHERE clause. */
  predicate WhereDispatch(before: string, v: Value) {
    EndsWithWhere(before) && v.Obj?
  }

  /** The replacement for one `?`, given the template text before it. */
  function Render(before: string, v: Value, esc: Escaper): (r: Result<string>)
    ensures r.Err? ==> WhereDispatch(before, v) && r.fault == OrSyntaxNotReady
  {
    if WhereDispatch(before, v) then Where.Compile(v.fields, esc) else Ok(esc(v))
  }

  /** Substitution over `query[i..]`, with `inserts` still unconsumed. */
  function Subst(query: string, i: nat, inserts: seq<Value>, esc: Escaper): (r: Result<Resolved>)
    requires i <= |query|
    ensures r.Err? ==> r.fault == OrSyntaxNotReady
    decreases |query| - i
  {
    if i == |query| then Ok(Resolved("", inserts))
    else if query[i] != '?' then PrependSql([query[i]], Subst(query, i + 1, inserts, esc))
    else if inserts == [] then PrependSql("?", Subst(query, i + 1, inserts, esc))
    else
      match Render(query[..i], inserts[0], esc)
      case Err(f) => Err(f)
      case Ok(piece) => PrependSql(piece, Subst(query, i + 1, inserts[1..], esc))
  }

  /** The number of `?` in `s`. */
  function Marks(s: string): (n: nat)
    ensures n <= |s|
  {
    if s == [] then 0 else (if s[0] == '?' then 1 else 0) + Marks(s[1..])
  }

  /** The callback of db.js:26-41 for the `?` at `i`: its replacement and
      the inserts left after any `shift()`, or the exception. */
  method Replacement(query: string, i: nat, queue: seq<Value>, esc: Escaper)
    returns (r: Result<(string, seq<Value>)>)
    requires i < |query| && query[i] == '?'
    ensures r.Err? ==> Subst(query, i, queue, esc) == Err(r.fault)
    ensures r.Ok? ==> Subst(query, i, queue, esc) == PrependSql(r.value.0, Subst(query, i + 1, r.value.1, esc))
  {
    if queue == [] {
      SubstBareMark(query, i, esc);
      return Ok(("?", queue));
    }
    SubstMark(query, i, queue, esc);
    if EndsWithWhere(query[..i]) && queue[0].Obj? {
      var clause := Where.Where(queue[0].fields, esc);
      if clause.Err? {
        return Err(clause.fault);
      }
      r := Ok((clause.value, queue[1..]));
    } else {
      r := Ok((esc(queue[0]), queue[1..]));
    }
  }

  /** Whether `inserts.length === 0` holds for a `param` that is not an array:
      the empty string, or an object whose `length` property is 0. */
  predicate LengthZero(param: Option<Value>) {
    param == Some(Str("")) ||
    (param.Some? && param.value.Obj? && Lookup(param.value.fields, "length") == Some(Num(0)))
  }

  /** The formatter as `connection.query(sql, param)` runs it (db.js:121),
      with `param` as given (`None` is `undefined`). An array is substituted.
      Anything else has no `shift`: a template without `?` is returned as it
      is, every `?` stays when `param.length` is 0, and otherwise the first
      `?` throws a TypeError. */
  function Format(query: string, param: Option<Value>, esc: Escaper): (r: Result<string>)
    ensures param.Some? && param.value.Arr? ==>
              (r.Ok? <==> Subst(query, 0, param.value.items, esc).Ok?) &&
              (r.Ok? ==> r.value == Subst(query, 0, param.value.items, esc).value.sql)
    ensures !(param.Some? && param.value.Arr?) ==>
              (r.Err? <==> Marks(query) > 0 && !LengthZero(param)) && (r.Ok? ==> r.value == query)
    ensures r.Err? ==> r.fault == (if param.Some? && param.value.Arr? then OrSyntaxNotReady else InsertsNotArray)
  {
    if param.Some? && param.value.Arr? then
      match Subst(query, 0, param.value.items, esc)
      case Ok(res) => Ok(res.sql)
      case Err(f) => Err(f)
    else if Marks(query) == 0 || LengthZero(param) then Ok(query)
    else Err(InsertsNotArray)
  }

  /** A template without `?` is never changed and never throws, whatever
      `param` is. */
  lemma FormatUnmarked(query: string, param: Option<Value>, esc: Escaper)
    requires Marks(query) == 0
    ensures Format(query, param, esc) == Ok(query)
  {
    if param.Some? && param.value.Arr? {
      MarksZero(query);
      SubstLiteral(query, 0, param.value.items, esc);
      assert query[0..] == query;
    }
  }

  /** `Marks` counts the `?`: it is 0 exactly when there is none. */
  lemma {:induction false} MarksZero(s: string)
    ensures Marks(s) == 0 <==> forall k :: 0 <= k < |s| ==> s[k] != '?'
  {
    if s != [] {
      MarksZero(s[1..]);
      assert forall k :: 0 < k < |s| ==> s[k] == s[1..][k - 1];
    }
  }

  /** A `?` anywhere makes `Marks` positive. */
  lemma MarksAt(s: string, k: nat)
    requires k < |s| && s[k] == '?'
    ensures Marks(s) > 0
  {
    MarksZero(s);
  }

  /** A replacement fails exactly for an object after `WHERE` holding the
      two-bar key; everything else renders. */
  lemma RenderOutcome(before: string, v: Value, esc: Escaper)
    ensures Render(before, v, esc).Err? <==> WhereDispatch(before, v) && Where.HasOrKey(v.fields)
    ensures !WhereDispatch(before, v) ==> Render(before, v, esc) == Ok(esc(v))
  {
    if WhereDispatch(before, v) {
      Where.WhereShape(v.fields, esc);
    }
  }

  /** `escape(query, inserts)`: the substituted text, with what is left of
      `inserts` after the `shift()` calls. */
  method Escape(query: string, inserts: seq<Value>, esc: Escaper) returns (r: Result<Resolved>)
    ensures r == Subst(query, 0, inserts, esc)
  {
    var out := "";
    var queue := inserts;
    var i := 0;
    PrependSqlEmpty(Subst(query, 0, inserts, esc));
    while i < |query|
      invariant 0 <= i <= |query|
      invariant Subst(query, 0, inserts, esc) == PrependSql(out, Subst(query, i, queue, esc))
    {
      var piece, rest := [query[i]], queue;
      if query[i] == '?' {
        var step := Replacement(query, i, queue, esc);
        if step.Err? {
          return Err(step.fault);
        }
        piece, rest := step.value.0, step.value.1;
      } else {
        SubstChar(query, i, queue, esc);
      }
      PrependSqlTwice(out, piece, Subst(query, i + 1, rest, esc));
      out, queue, i := out + piece, rest, i + 1;
    }
    r := Ok(Resolved(out, queue));
    assert out + "" == out;
  }

  /** One step of Subst over a character other than `?`. */
  lemma SubstChar(query: string, i: nat, inserts: seq<Value>, esc: Escaper)
    requires i < |query| && query[i] != '?'
    ensures Subst(query, i, inserts, esc) == PrependSql([query[i]], Subst(query, i + 1, inserts, esc))
  {
  }

  /** One step of Subst over a `?` with no insert left. */
  lemma SubstBareMark(query: string, i: nat, esc: Escaper)
    requires i < |query| && query[i] == '?'
    ensures Subst(query, i, [], esc) == PrependSql("?", Subst(query, i + 1, [], esc))
  {
  }

  /** One step of Subst over a `?` that takes the next insert. */
  lemma SubstMark(query: string, i: nat, inserts: seq<Value>, esc: Escaper)
    requires i < |query| && query[i] == '?' && inserts != []
    ensures Render(query[..i], inserts[0], esc).Err? ==>
              Subst(query, i, inserts, esc) == Err(Render(query[..i], inserts[0], esc).fault)
    ensures Render(query[..i], inserts[0], esc).Ok? ==>
              Subst(query, i, inserts, esc) ==
              PrependSql(Render(query[..i], inserts[0], esc).value, Subst(query, i + 1, inserts[1..], esc))
  {
  }

  /** A copied character in front of the copied rest of the template. */
  lemma PrependChar(query: string, i: nat, rest: seq<Value>)
    requires i < |query|
    ensures PrependSql([query[i]], Ok(Resolved(query[i + 1..], rest))) == Ok(Resolved(query[i..], rest))
  {
    assert [query[i]] + query[i + 1..] == query[i..];
  }

  /** Template text without `?` is copied unchanged and consumes nothing. */
  lemma {:induction false} SubstLiteral(query: string, i: nat, inserts: seq<Value>, esc: Escaper)
    requires i <= |query|
    requires forall k :: i <= k < |query| ==> query[k] != '?'
    ensures Subst(query, i, inserts, esc) == Ok(Resolved(query[i..], inserts))
    decreases |query| - i
  {
    if i < |query| {
      SubstLiteral(query, i + 1, inserts, esc);
      SubstChar(query, i, inserts, esc);
      PrependChar(query, i, inserts);
    } else {
      assert query[i..] == [];
    }
  }

  /** Once the inserts are used up, every remaining `?` stays literal. */
  lemma {:induction false} SubstExhausted(query: string, i: nat, esc: Escaper)
    requires i <= |query|
    ensures Subst(query, i, [], esc) == Ok(Resolved(query[i..], []))
    decreases |query| - i
  {
    if i < |query| {
      SubstExhausted(query, i + 1, esc);
      if query[i] == '?' {
        SubstBareMark(query, i, esc);
        assert "?" == [query[i]];
      } else {
        SubstChar(query, i, [], esc);
      }
      PrependChar(query, i, []);
    } else {
      assert query[i..] == [];
    }
  }

  /** One insert per `?`: a successful substitution consumes exactly as many
      inserts as there are `?` (or all of them, when there are fewer), and
      leaves the rest, in order. */
  lemma {:induction false} SubstConsumes(query: string, i: nat, inserts: seq<Value>, esc: Escaper)
    requires i <= |query|
    requires Subst(query, i, inserts, esc).Ok?
    ensures var used := if Marks(query[i..]) <= |inserts| then Marks(query[i..]) else |inserts|;
            Subst(query, i, inserts, esc).value.rest == inserts[used..]
    decreases |query| - i
  {
    if i < |query| {
      assert query[i..][1..] == query[i + 1..];
      if query[i] == '?' && inserts != [] {
        SubstMark(query, i, inserts, esc);
        SubstConsumes(query, i + 1, inserts[1..], esc);
        assert inserts[1..][if Marks(query[i + 1..]) <= |inserts| - 1 then Marks(query[i + 1..]) else |inserts| - 1..]
               == inserts[if Marks(query[i..]) <= |inserts| then Marks(query[i..]) else |inserts|..];
      } else {
        if query[i] == '?' {
          SubstBareMark(query, i, esc);
        } else {
          SubstChar(query, i, inserts, esc);
        }
        SubstConsumes(query, i + 1, inserts, esc);
        if inserts == [] {
          assert inserts[0..] == [];
        }
      }
    } else {
      assert inserts[0..] == inserts;
    }
  }

  /** Source order: the text up to the first `?` at or after `i` is copied,
      that `?` becomes the rendering of the first insert (dispatched on the
      template text before it), and substitution carries on after it with
      the remaining inserts. */
  lemma ConsPrefix(query: string, i: nat, p: nat, t: string)
    requires i < p <= |query|
    ensures [query[i]] + (query[i + 1..p] + t) == query[i..p] + t
  {
    assert [query[i]] + query[i + 1..p] == query[i..p];
  }

  lemma {:induction false} SubstStep(query: string, i: nat, p: nat, inserts: seq<Value>, esc: Escaper)
    requires i <= p < |query| && query[p] == '?'
    requires forall k :: i <= k < p ==> query[k] != '?'
    requires inserts != []
    ensures Render(query[..p], inserts[0], esc).Err? ==>
              Subst(query, i, inserts, esc) == Err(Render(query[..p], inserts[0], esc).fault)
    ensures Render(query[..p], inserts[0], esc).Ok? ==>
              Subst(query, i, inserts, esc) ==
              PrependSql(query[i..p] + Render(query[..p], inserts[0], esc).value,
                         Subst(query, p + 1, inserts[1..], esc))
    decreases p - i
  {
    var rd := Render(query[..p], inserts[0], esc);
    if i < p {
      SubstStep(query, i + 1, p, inserts, esc);
      SubstChar(query, i, inserts, esc);
      if rd.Ok? {
        PrependSqlTwice([query[i]], query[i + 1..p] + rd.value, Subst(query, p + 1, inserts[1..], esc));
        ConsPrefix(query, i, p, rd.value);
      }
    } else {
      SubstMark(query, p, inserts, esc);
      if rd.Ok? {
        assert query[i..p] == [];
        assert [] + rd.value == rd.value;
      }
    }
  }

  /** Anything but a plain object goes through the escaper. */
  lemma ScalarRender(before: string, v: Value, esc: Escaper)
    requires !v.Obj?
    ensures Render(before, v, esc) == Ok(esc(v))
  {
  }

  const TwoValues := "SELECT * FROM t WHERE a=? AND b=?"

  /** Where the two `?` of TwoValues are, and the text around them. */
  lemma TwoValuesLayout()
    ensures |TwoValues| == 33 && TwoValues[24] == '?' && TwoValues[32] == '?'
    ensures forall k :: 0 <= k < 24 ==> TwoValues[k] != '?'
    ensures forall k :: 25 <= k < 32 ==> TwoValues[k] != '?'
    ensures TwoValues[0..24] == "SELECT * FROM t WHERE a=" && TwoValues[25..32] == " AND b="
    ensures TwoValues[33..] == []
  {
  }

  lemma TwoValuesTail(esc: Escaper)
    ensures Subst(TwoValues, 25, [Str("x")], esc) == Ok(Resolved(" AND b=" + esc(Str("x")), []))
  {
    var q := TwoValues;
    TwoValuesLayout();
    SubstExhausted(q, 33, esc);
    SubstStep(q, 25, 32, [Str("x")], esc);
    assert [Str("x")][1..] == [];
    var e := esc(Str("x"));
    ScalarRender(q[..32], Str("x"), esc);
    AppendEmpty(" AND b=" + e);
  }

  /** A template `SELECT * FROM t WHERE a=? AND b=?` with inserts `[1, "x"]`
      gives the template with the two escaped values in place. */
  lemma TwoValuesExample(esc: Escaper)
    ensures Subst(TwoValues, 0, [Num(1), Str("x")], esc) ==
            Ok(Resolved("SELECT * FROM t WHERE a=" + esc(Num(1)) + " AND b=" + esc(Str("x")), []))
  {
    var q := TwoValues;
    TwoValuesLayout();
    TwoValuesTail(esc);
    SubstStep(q, 0, 24, [Num(1), Str("x")], esc);
    assert [Num(1), Str("x")][1..] == [Str("x")];
    var e1, e2 := esc(Num(1)), esc(Str("x"));
    ScalarRender(q[..24], Num(1), esc);
    Regroup3("SELECT * FROM t WHERE a=", e1, " AND b=", e2);
  }

  lemma AppendEmpty(s: string)
    ensures s + "" == s
  {
  }

  lemma Regroup3(a: string, b: string, c: string, d: string)
    ensures a + b + (c + d) == a + b + c + d
  {
  }

  /** A template with a single `?` at its end and one insert: the text
      before it, then the rendering of the insert. */
  lemma SubstSingle(before: string, v: Value, esc: Escaper)
    requires forall k :: 0 <= k < |before| ==> before[k] != '?'
    ensures Render(before, v, esc).Err? ==> Subst(before + "?", 0, [v], esc) == Err(Render(before, v, esc).fault)
    ensures Render(before, v, esc).Ok? ==>
              Subst(before + "?", 0, [v], esc) == Ok(Resolved(before + Render(before, v, esc).value, []))
  {
    var q := before + "?";
    assert q[..|before|] == before && q[0..|before|] == before;
    SubstExhausted(q, |q|, esc);
    SubstStep(q, 0, |before|, [v], esc);
    assert [v][1..] == [];
    if Render(before, v, esc).Ok? {
      AppendEmpty(before + Render(before, v, esc).value);
    }
  }

  const WherePrefix := "SELECT * FROM t WHERE "

  /** WherePrefix holds no `?` and ends in `WHERE` and a space. */
  lemma WherePrefixLayout()
    ensures forall k :: 0 <= k < |WherePrefix| ==> WherePrefix[k] != '?'
    ensures |WherePrefix| == 22 && WherePrefix[..21][16..] == "WHERE" && AllSpace(WherePrefix[21..])
  {
  }

  /** WherePrefix passes the WHERE test. */
  lemma WherePrefixWhere()
    ensures EndsWithWhere(WherePrefix)
  {
    WherePrefixLayout();
    assert HasSuffix(WherePrefix[..21], "WHERE");
    EndsWithWhereIff(WherePrefix);
  }

  lemma WhereObjectRender(esc: Escaper)
    ensures Render(WherePrefix, Obj([("age>", Num(5))]), esc) == Ok("age >= " + esc(Num(5)))
  {
    WherePrefixWhere();
    Where.GreaterOrEqualExample(esc);
  }

  /** An object after `WHERE` is compiled as a clause:
      `SELECT * FROM t WHERE ?` with `{"age>": 5}` gives
      `SELECT * FROM t WHERE age >= 5`. */
  lemma WhereObjectExample(esc: Escaper)
    ensures Subst(WherePrefix + "?", 0, [Obj([("age>", Num(5))])], esc) ==
            Ok(Resolved(WherePrefix + ("age >= " + esc(Num(5))), []))
  {
    WherePrefixLayout();
    WhereObjectRender(esc);
    SubstSingle(WherePrefix, Obj([("age>", Num(5))]), esc);
  }
}
