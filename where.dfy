/** `escape.WHERE` (db.js:44-119): compiles a plain object into a WHERE
    predicate, key by key, in `Object.keys` order. Each key contributes its
    fragment followed by the joiner `" && "`, and the last four characters of
    the accumulated text are cut off at the end. `handle` has no early
    returns: the comparison `column op= value` is appended for every key,
    after whatever the password, LIKE or IN branches already emitted. */
module Where {
  import opened Text
  import opened Values

  const Joiner := " && "

  /** The helper `b`: wraps a fragment in parentheses. */
  function Paren(s: string): (r: string)
    ensures |r| == |s| + 2 && r[0] == '(' && r[|r| - 1] == ')' && r[1..|r| - 1] == s
  {
    "(" + s + ")"
  }

  /** `/([!<>])$/.exec(key)`: the trailing operator character, if any. */
  function OperatorSuffix(key: string): (r: Option<char>)
    ensures r.Some? <==> |key| > 0 && key[|key| - 1] in "!<>"
    ensures r.Some? ==> r.value == key[|key| - 1]
  {
    if |key| > 0 && key[|key| - 1] in "!<>" then Some(key[|key| - 1]) else None
  }

  /** The key with its operator character removed (`key.slice(0, -1)`). */
  function Column(key: string): (r: string)
    ensures OperatorSuffix(key).None? ==> r == key
    ensures OperatorSuffix(key).Some? ==> r + [OperatorSuffix(key).value] == key
  {
    if OperatorSuffix(key).Some? then key[..|key| - 1] else key
  }

  /** `/password!?$/.test(key)`. */
  predicate IsPasswordKey(key: string) {
    HasSuffix(key, "password") || HasSuffix(key, "password!")
  }

  /** ` LIKE` occurs at `i` and is followed by a space or by the end. */
  predicate LikeAt(key: string, i: nat) {
    i + 5 <= |key| && key[i..i + 5] == " LIKE" && (i + 5 == |key| || key[i + 5] == ' ')
  }

  /** `/ LIKE( |$)/.test(key)`. */
  predicate IsLikeKey(key: string) {
    exists i: nat | i <= |key| :: LikeAt(key, i)
  }

  /** `word` is exactly what is left of `key` from index `i` on. */
  predicate RestIs(key: string, i: nat, word: string) {
    i <= |key| && key[i..] == word
  }

  /** `word` occurs in `key` at index `i`. */
  predicate OccursAt(key: string, i: nat, word: string) {
    i + |word| <= |key| && key[i..i + |word|] == word
  }

  /** One suffix test read as a position: `key` ends with `word` exactly
      when what follows some index is `word`. */
  lemma SuffixAt(key: string, word: string)
    ensures HasSuffix(key, word) <==> exists i: nat :: RestIs(key, i, word)
  {
    if i: nat :| RestIs(key, i, word) {
      assert |key[i..]| == |key| - i;
    }
    if HasSuffix(key, word) {
      assert RestIs(key, |key| - |word|, word);
    }
  }

  /** The password test read as its regular expression `password!?$`: the
      key ends with `password`, or with `password!`. */
  lemma PasswordKeyIff(key: string)
    ensures IsPasswordKey(key) <==>
            exists i: nat :: RestIs(key, i, "password") || RestIs(key, i, "password!")
  {
    SuffixAt(key, "password");
    SuffixAt(key, "password!");
  }

  /** The LIKE test read as its regular expression ` LIKE( |$)`: the key
      ends with ` LIKE`, or contains ` LIKE ` somewhere. */
  lemma LikeKeyIff(key: string)
    ensures IsLikeKey(key) <==>
            HasSuffix(key, " LIKE") || exists i: nat :: OccursAt(key, i, " LIKE ")
  {
    if IsLikeKey(key) {
      var i: nat :| i <= |key| && LikeAt(key, i);
      if i + 5 == |key| {
        assert key[|key| - 5..] == key[i..i + 5];
      } else {
        assert key[i..i + 6] == key[i..i + 5] + [key[i + 5]];
        assert OccursAt(key, i, " LIKE ");
      }
    }
    if HasSuffix(key, " LIKE") {
      assert LikeAt(key, |key| - 5);
    }
    if i: nat :| OccursAt(key, i, " LIKE ") {
      assert key[i..i + 5] == key[i..i + 6][..5];
      assert key[i + 5] == key[i..i + 6][5];
      assert LikeAt(key, i);
    }
  }

  /** `'SHA1' + b(mysql.escape(x))` for every element, in order. */
  function Hashed(items: seq<Value>, esc: Escaper): (r: seq<string>)
    ensures |r| == |items|
    ensures forall i :: 0 <= i < |items| ==> r[i] == "SHA1" + Paren(esc(items[i]))
  {
    seq(|items|, i requires 0 <= i < |items| => "SHA1" + Paren(esc(items[i])))
  }

  /** `key + ' ' + mysql.escape(x)` for every element, in order. */
  function Likes(key: string, items: seq<Value>, esc: Escaper): (r: seq<string>)
    ensures |r| == |items|
    ensures forall i :: 0 <= i < |items| ==> r[i] == key + " " + esc(items[i])
  {
    seq(|items|, i requires 0 <= i < |items| => key + " " + esc(items[i]))
  }

  /** The hashed membership test of db.js:61-68 over the already hashed
      elements `hashes`: `password IN(...)`, or `NOT IN` when negated. */
  function HashedIn(negated: bool, hashes: string): string {
    "password " + (if negated then "NOT IN" else "IN") + Paren(hashes)
  }

  /** The hashed comparison of db.js:70-73: `password = SHA1(...)`, or `!=`
      when negated. */
  function HashedEquals(negated: bool, escaped: string): string {
    "password " + (if negated then "!" else "") + "= SHA1" + Paren(escaped)
  }

  /** The hashed test of the password branch (db.js:61-74), negated when
      the key carries an operator suffix. */
  function HashedTest(negated: bool, value: Value, esc: Escaper): string {
    if value.Arr? then HashedIn(negated, Join(Hashed(value.items, esc), ", "))
    else HashedEquals(negated, esc(value))
  }

  /** What the password branch (db.js:59-75) emits. */
  function PasswordPart(key: string, value: Value, esc: Escaper): string {
    if IsPasswordKey(key) then HashedTest(OperatorSuffix(key).Some?, value, esc) else ""
  }

  /** The LIKE test of db.js:82-88: one `key value` per element, joined by
      `||` and parenthesised, or a single `key value`. */
  function LikeTest(key: string, value: Value, esc: Escaper): string {
    if value.Arr? then Paren(Join(Likes(key, value.items, esc), " || ")) else key + " " + esc(value)
  }

  /** What the LIKE branch (db.js:81-89) emits. */
  function LikePart(key: string, value: Value, esc: Escaper): string {
    if IsLikeKey(key) then LikeTest(key, value, esc) else ""
  }

  /** What the array branch (db.js:104-106) emits. */
  function InPart(key: string, value: Value, esc: Escaper): string {
    if !value.Arr? then ""
    else Column(key) + " " + (if OperatorSuffix(key).Some? then "NOT " else "") + "IN" + Paren(esc(value))
  }

  /** The comparison appended for every key (db.js:108). */
  function ComparePart(key: string, value: Value, esc: Escaper): string {
    Column(key) + " " + (match OperatorSuffix(key) case Some(op) => [op] case None => "") + "= " + esc(value)
  }

  /** Everything `handle(key, value)` appends before the joiner. */
  function Fragment(key: string, value: Value, esc: Escaper): string {
    PasswordPart(key, value, esc) + LikePart(key, value, esc) + InPart(key, value, esc)
    + ComparePart(key, value, esc)
  }

  /** `handle(key, value)` as a whole: its text and joiner, or the exception
      for the reserved key `||`. */
  function Clause(key: string, value: Value, esc: Escaper): Result<string> {
    if key == "||" then Err(OrSyntaxNotReady) else Ok(Fragment(key, value, esc) + Joiner)
  }

  /** The text `handle` accumulates over the keys from the first to the last,
      or the first exception. */
  function Clauses(fields: seq<(string, Value)>, esc: Escaper): (r: Result<string>)
    ensures r.Err? ==> r.fault == OrSyntaxNotReady
  {
    if fields == [] then Ok("")
    else
      match Clause(fields[0].0, fields[0].1, esc)
      case Err(f) => Err(f)
      case Ok(c) => Prepend(c, Clauses(fields[1..], esc))
  }

  /** The result of `escape.WHERE(paramObj)`. */
  function Compile(fields: seq<(string, Value)>, esc: Escaper): (r: Result<string>)
    ensures r.Err? ==> r.fault == OrSyntaxNotReady
  {
    match Clauses(fields, esc)
    case Ok(s) => Ok(DropLast(s, |Joiner|))
    case Err(f) => Err(f)
  }

  function Fragments(fields: seq<(string, Value)>, esc: Escaper): (r: seq<string>)
    ensures |r| == |fields|
    ensures forall i :: 0 <= i < |fields| ==> r[i] == Fragment(fields[i].0, fields[i].1, esc)
  {
    seq(|fields|, i requires 0 <= i < |fields| => Fragment(fields[i].0, fields[i].1, esc))
  }

  predicate HasOrKey(fields: seq<(string, Value)>) {
    exists i :: 0 <= i < |fields| && fields[i].0 == "||"
  }

  /** The membership test of the password block (db.js:61-68). */
  method AppendHashedIn(sql: string, negated: bool, hashes: string) returns (out: string)
    ensures out == sql + HashedIn(negated, hashes)
  {
    out := sql + "password ";
    out := out + (if negated then "NOT IN" else "IN");
    out := out + Paren(hashes);
  }

  /** The comparison of the password block (db.js:70-73). */
  method AppendHashedEquals(sql: string, negated: bool, escaped: string) returns (out: string)
    ensures out == sql + HashedEquals(negated, escaped)
  {
    out := sql + "password ";
    out := out + (if negated then "!" else "");
    out := out + "= SHA1" + Paren(escaped);
  }

  /** The password block of `handle` (db.js:59-75). */
  method AppendPassword(sql: string, key: string, value: Value, esc: Escaper) returns (out: string)
    ensures out == sql + PasswordPart(key, value, esc)
  {
    var isNot := OperatorSuffix(key);
    out := sql;
    if IsPasswordKey(key) {
      if value.Arr? {
        out := AppendHashedIn(out, isNot.Some?, Join(Hashed(value.items, esc), ", "));
      } else {
        out := AppendHashedEquals(out, isNot.Some?, esc(value));
      }
    } else {
      assert sql + "" == sql;
    }
  }

  /** The LIKE block of `handle` (db.js:81-89). */
  method AppendLike(sql: string, key: string, value: Value, esc: Escaper) returns (out: string)
    ensures out == sql + LikePart(key, value, esc)
  {
    out := sql;
    if IsLikeKey(key) {
      if value.Arr? {
        out := out + Paren(Join(Likes(key, value.items, esc), " || "));
      } else {
        out := out + (key + " " + esc(value));
      }
    } else {
      assert sql + "" == sql;
    }
  }

  /** The array block of `handle` (db.js:104-106). */
  method AppendIn(sql: string, key: string, value: Value, esc: Escaper) returns (out: string)
    ensures out == sql + InPart(key, value, esc)
  {
    var isNot := OperatorSuffix(key);
    out := sql;
    if value.Arr? {
      var piece := (if isNot.Some? then key[..|key| - 1] else key) + " " + (if isNot.Some? then "NOT " else "")
                   + "IN" + Paren(esc(value));
      assert piece == InPart(key, value, esc);
      out := out + piece;
    } else {
      assert sql + InPart(key, value, esc) == sql;
    }
  }

  /** The comparison `handle` appends for every key (db.js:108). */
  method AppendComparison(sql: string, key: string, value: Value, esc: Escaper) returns (out: string)
    ensures out == sql + ComparePart(key, value, esc)
  {
    var isNot := OperatorSuffix(key);
    out := sql + (if isNot.Some? then key[..|key| - 1] else key) + " "
           + (match isNot case Some(op) => [op] case None => "") + "= " + esc(value);
  }

  /** `handle(key, value)`, appending to the text accumulated so far: the
      blocks run one after the other, none of them returns early, and only
      the reserved key `||` throws. */
  method Handle(sql: string, key: string, value: Value, esc: Escaper) returns (r: Result<string>)
    ensures r == Prepend(sql, Clause(key, value, esc))
  {
    var out := AppendPassword(sql, key, value, esc);
    out := AppendLike(out, key, value, esc);
    if key == "||" {
      return Err(OrSyntaxNotReady);
    }
    out := AppendIn(out, key, value, esc);
    out := AppendComparison(out, key, value, esc);
    out := out + Joiner;
    r := Ok(out);
    ConcatRegroup(sql, PasswordPart(key, value, esc), LikePart(key, value, esc),
                  InPart(key, value, esc), ComparePart(key, value, esc), Joiner);
  }

  /** Clauses over the keys from `i` on: the clause of key `i`, then the rest. */
  lemma ClausesAt(fields: seq<(string, Value)>, i: nat, esc: Escaper)
    requires i < |fields|
    ensures Clauses(fields[i..], esc) ==
            (if fields[i].0 == "||" then Err(OrSyntaxNotReady)
             else Prepend(Fragment(fields[i].0, fields[i].1, esc) + Joiner, Clauses(fields[i + 1..], esc)))
  {
    assert fields[i..][0] == fields[i];
    assert fields[i..][1..] == fields[i + 1..];
  }

  lemma ConcatRegroup(a: string, b: string, c: string, d: string, e: string, f: string)
    ensures a + (b + c + d + e + f) == a + b + c + d + e + f
  {
  }

  /** `escape.WHERE(paramObj)`: runs `handle` over the keys and cuts the
      trailing joiner. */
  method Where(fields: seq<(string, Value)>, esc: Escaper) returns (r: Result<string>)
    ensures r == Compile(fields, esc)
  {
    var sql := "";
    var i := 0;
    PrependEmpty(Clauses(fields, esc));
    assert fields[i..] == fields;
    while i < |fields|
      invariant 0 <= i <= |fields|
      invariant Clauses(fields, esc) == Prepend(sql, Clauses(fields[i..], esc))
    {
      ClausesAt(fields, i, esc);
      var step := Handle(sql, fields[i].0, fields[i].1, esc);
      if step.Err? {
        return Err(step.fault);
      }
      PrependTwice(sql, Fragment(fields[i].0, fields[i].1, esc) + Joiner, Clauses(fields[i + 1..], esc));
      sql := step.value;
      i := i + 1;
    }
    assert fields[i..] == [];
    assert sql + "" == sql;
    r := Ok(DropLast(sql, |Joiner|));
  }

  /** The compiled text is the key fragments, in key order, joined by
      `" && "`; `{}` compiles to the empty string. */
  lemma {:induction false} ClausesTerminated(fields: seq<(string, Value)>, esc: Escaper)
    requires !HasOrKey(fields)
    ensures Clauses(fields, esc) == Ok(Terminated(Fragments(fields, esc), Joiner))
  {
    if fields != [] {
      assert !HasOrKey(fields[1..]) by {
        forall i | 0 <= i < |fields[1..]| ensures fields[1..][i].0 != "||" {
          assert fields[1..][i] == fields[i + 1];
        }
      }
      ClausesTerminated(fields[1..], esc);
      assert Fragments(fields, esc)[1..] == Fragments(fields[1..], esc);
    }
  }

  /** The reserved key `||` anywhere in the object makes the call throw. */
  lemma {:induction false} ClausesFail(fields: seq<(string, Value)>, esc: Escaper)
    requires HasOrKey(fields)
    ensures Clauses(fields, esc) == Err(OrSyntaxNotReady)
  {
    if fields[0].0 != "||" {
      var i :| 0 <= i < |fields| && fields[i].0 == "||";
      assert fields[1..][i - 1] == fields[i];
      ClausesFail(fields[1..], esc);
    }
  }

  /** WHERE shape: the call throws exactly when some key is `||`; otherwise
      its result is the per-key fragments joined by `" && "`. */
  lemma WhereShape(fields: seq<(string, Value)>, esc: Escaper)
    ensures Compile(fields, esc).Err? <==> HasOrKey(fields)
    ensures HasOrKey(fields) ==> Compile(fields, esc) == Err(OrSyntaxNotReady)
    ensures !HasOrKey(fields) ==> Compile(fields, esc) == Ok(Join(Fragments(fields, esc), Joiner))
  {
    if HasOrKey(fields) {
      ClausesFail(fields, esc);
    } else {
      ClausesTerminated(fields, esc);
      var parts := Fragments(fields, esc);
      if parts != [] {
        TerminatedIsJoin(parts, Joiner);
        var t := Terminated(parts, Joiner);
        assert DropLast(t, |Joiner|) == Join(parts, Joiner);
      }
    }
  }

  /** Every fragment ends with the comparison `column op= value`, whatever
      the earlier branches emitted. */
  lemma FragmentEndsWithComparison(key: string, value: Value, esc: Escaper)
    ensures HasSuffix(Fragment(key, value, esc), ComparePart(key, value, esc))
  {
    var pre := PasswordPart(key, value, esc) + LikePart(key, value, esc) + InPart(key, value, esc);
    var c := ComparePart(key, value, esc);
    assert Fragment(key, value, esc) == pre + c;
    assert (pre + c)[|pre + c| - |c|..] == c;
  }

  /** A key that is neither a password key nor a LIKE key. */
  predicate IsPlainKey(key: string) {
    !IsPasswordKey(key) && !IsLikeKey(key)
  }

  /** Operator suffix: `stripped op= value` for a scalar; a key without a
      suffix gives `key = value`. */
  lemma ScalarFragment(key: string, value: Value, esc: Escaper)
    requires IsPlainKey(key) && !value.Arr?
    ensures OperatorSuffix(key).None? ==> Fragment(key, value, esc) == key + " = " + esc(value)
    ensures OperatorSuffix(key).Some? ==>
              Fragment(key, value, esc) ==
              key[..|key| - 1] + " " + [key[|key| - 1]] + "= " + esc(value)
  {
    if OperatorSuffix(key).Some? {
      assert Column(key) == key[..|key| - 1];
    }
  }

  /** The array block alone: `column IN(...)`, or `column NOT IN(...)`
      under any of the suffixes `!`, `<`, `>`. */
  lemma InPartShape(key: string, value: Value, esc: Escaper)
    requires value.Arr?
    ensures InPart(key, value, esc) ==
            Column(key) + (if OperatorSuffix(key).Some? then " NOT IN(" else " IN(") + esc(value) + ")"
  {
    var e := esc(value);
    var c := Column(key);
    if OperatorSuffix(key).Some? {
      assert InPart(key, value, esc) == c + " " + "NOT " + "IN" + Paren(e);
      assert c + " " + "NOT " + "IN" + Paren(e) == c + " NOT IN(" + e + ")";
    } else {
      assert InPart(key, value, esc) == c + " " + "" + "IN" + Paren(e);
      assert c + " " + "" + "IN" + Paren(e) == c + " IN(" + e + ")";
    }
  }

  /** Array values under a plain key: the IN test, then the comparison. */
  lemma ArrayFragment(key: string, value: Value, esc: Escaper)
    requires IsPlainKey(key) && value.Arr?
    ensures Fragment(key, value, esc) ==
            Column(key) + (if OperatorSuffix(key).Some? then " NOT IN(" else " IN(") + esc(value) + ")"
            + ComparePart(key, value, esc)
  {
    assert PasswordPart(key, value, esc) == "";
    assert LikePart(key, value, esc) == "";
    InPartShape(key, value, esc);
  }

  /** The membership test written out. */
  lemma HashedInShape(negated: bool, hashes: string)
    ensures HashedIn(negated, hashes) == "password " + (if negated then "NOT IN(" else "IN(") + hashes + ")"
  {
    var op := if negated then "NOT IN" else "IN";
    assert "password " + op + Paren(hashes) == "password " + (op + "(") + hashes + ")";
  }

  /** The comparison written out. */
  lemma HashedEqualsShape(negated: bool, escaped: string)
    ensures !negated ==> HashedEquals(negated, escaped) == "password = SHA1(" + escaped + ")"
    ensures negated ==> HashedEquals(negated, escaped) == "password != SHA1(" + escaped + ")"
  {
    var neg := if negated then "!" else "";
    assert "password " + neg + "= SHA1" + Paren(escaped) == "password " + neg + "= SHA1(" + escaped + ")";
  }

  /** The password block alone: the hashed test, negated exactly when the
      key ends in an operator character. */
  lemma PasswordPartShape(key: string, value: Value, esc: Escaper)
    requires IsPasswordKey(key)
    ensures !value.Arr? && OperatorSuffix(key).None? ==>
              PasswordPart(key, value, esc) == "password = SHA1(" + esc(value) + ")"
    ensures !value.Arr? && OperatorSuffix(key).Some? ==>
              PasswordPart(key, value, esc) == "password != SHA1(" + esc(value) + ")"
    ensures value.Arr? ==>
              PasswordPart(key, value, esc) ==
              "password " + (if OperatorSuffix(key).Some? then "NOT IN(" else "IN(")
              + Join(Hashed(value.items, esc), ", ") + ")"
  {
    var negated := OperatorSuffix(key).Some?;
    if value.Arr? {
      HashedInShape(negated, Join(Hashed(value.items, esc), ", "));
    } else {
      HashedEqualsShape(negated, esc(value));
    }
  }

  /** A key ending in `password!` is negated by its `!`. */
  lemma PasswordBang(key: string)
    requires HasSuffix(key, "password!")
    ensures OperatorSuffix(key) == Some('!')
  {
    assert key[|key| - 1] == key[|key| - 9..][8] == "password!"[8];
  }

  /** Password keys: the hashed comparison first (`!=` or `NOT IN` when the
      key ends in `!`), then the array block and the plain comparison. */
  lemma PasswordFragment(key: string, value: Value, esc: Escaper)
    requires IsPasswordKey(key) && !IsLikeKey(key)
    ensures Fragment(key, value, esc) ==
            PasswordPart(key, value, esc) + InPart(key, value, esc) + ComparePart(key, value, esc)
    ensures HasSuffix(key, "password!") ==> OperatorSuffix(key) == Some('!')
  {
    var p := PasswordPart(key, value, esc);
    var l := LikePart(key, value, esc);
    assert l == "";
    assert p + l == p;
    if HasSuffix(key, "password!") {
      PasswordBang(key);
    }
  }

  /** LIKE keys: `key value`, or the parenthesised `||` of one such test per
      element, before the rest of the fragment. */
  lemma LikeFragment(key: string, value: Value, esc: Escaper)
    requires IsLikeKey(key) && !IsPasswordKey(key)
    ensures !value.Arr? ==>
              Fragment(key, value, esc) == key + " " + esc(value) + ComparePart(key, value, esc)
    ensures value.Arr? ==>
              Fragment(key, value, esc) ==
              "(" + Join(Likes(key, value.items, esc), " || ") + ")"
              + InPart(key, value, esc) + ComparePart(key, value, esc)
  {
    var p := PasswordPart(key, value, esc);
    var l := LikePart(key, value, esc);
    assert p == "";
    assert l == LikeTest(key, value, esc);
    assert p + l == l;
    if !value.Arr? {
      var i := InPart(key, value, esc);
      assert i == "";
      assert l + i == l;
    }
  }

  /** A key can be of both kinds: `x LIKE password` passes the password test
      and the LIKE test. */
  lemma BothKindsExample()
    ensures IsPasswordKey("x LIKE password") && IsLikeKey("x LIKE password")
  {
    var key := "x LIKE password";
    assert key[|key| - 8..] == "password";
    assert LikeAt(key, 1);
  }

  /** Keys of both kinds: the hashed test comes first, then the LIKE test,
      then the array block and the comparison. */
  lemma PasswordLikeFragment(key: string, value: Value, esc: Escaper)
    requires IsPasswordKey(key) && IsLikeKey(key)
    ensures Fragment(key, value, esc) ==
            HashedTest(OperatorSuffix(key).Some?, value, esc) + LikeTest(key, value, esc)
            + InPart(key, value, esc) + ComparePart(key, value, esc)
  {
  }

  /** `{"age>": 5}` compiles to `age >= 5`. */
  lemma GreaterOrEqualExample(esc: Escaper)
    ensures Compile([("age>", Num(5))], esc) == Ok("age >= " + esc(Num(5)))
  {
    var fields := [("age>", Num(5))];
    var e := esc(Num(5));
    assert !IsLikeKey("age>");
    assert !IsPasswordKey("age>");
    assert !HasOrKey(fields);
    WhereShape(fields, esc);
    ScalarFragment("age>", Num(5), esc);
    assert "age>"[..3] == "age" && ["age>"[3]] == ">";
    assert "age" + " " + ">" + "= " + e == "age >= " + e;
    assert Fragments(fields, esc) == ["age >= " + e];
  }
}
