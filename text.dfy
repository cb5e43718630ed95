/** String helpers shared by the clause compiler, the placeholder engine and the
    template scanner: JavaScript's whitespace class, `trim`, suffix tests and
    `Array.prototype.join`. */
module Text {

  /** The characters of JavaScript's `\s` class; `String.prototype.trim` removes
      exactly the same set. */
  predicate IsSpace(c: char) {
    c == ' ' || c == '\t' || c == '\n' || c == '\r' || c == '\U{000B}' || c == '\U{000C}' ||
    c == '\U{00A0}' || c == '\U{1680}' || ('\U{2000}' <= c <= '\U{200A}') ||
    c == '\U{2028}' || c == '\U{2029}' || c == '\U{202F}' || c == '\U{205F}' ||
    c == '\U{3000}' || c == '\U{FEFF}'
  }

  predicate AllSpace(s: string) {
    forall i :: 0 <= i < |s| ==> IsSpace(s[i])
  }

  /** Neither end of `s` is whitespace. */
  predicate IsTrimmed(s: string) {
    s == [] || (!IsSpace(s[0]) && !IsSpace(s[|s| - 1]))
  }

  predicate HasSuffix(s: string, t: string) {
    |t| <= |s| && s[|s| - |t|..] == t
  }

  /** The end of the whitespace run that starts at `i`. */
  function SpaceRun(s: string, i: nat): (j: nat)
    requires i <= |s|
    ensures i <= j <= |s|
    ensures forall k :: i <= k < j ==> IsSpace(s[k])
    ensures j == |s| || !IsSpace(s[j])
    decreases |s| - i
  {
    if i < |s| && IsSpace(s[i]) then SpaceRun(s, i + 1) else i
  }

  /** The start of the whitespace run that ends at `j`. */
  function SpaceRunBack(s: string, j: nat): (i: nat)
    requires j <= |s|
    ensures i <= j
    ensures forall k :: i <= k < j ==> IsSpace(s[k])
    ensures i == 0 || !IsSpace(s[i - 1])
  {
    if j > 0 && IsSpace(s[j - 1]) then SpaceRunBack(s, j - 1) else j
  }

  /** Drops the longest whitespace prefix. */
  function TrimStart(s: string): (r: string)
    ensures |r| <= |s| && r == s[|s| - |r|..]
    ensures AllSpace(s[..|s| - |r|])
    ensures r == [] || !IsSpace(r[0])
  {
    s[SpaceRun(s, 0)..]
  }

  /** Drops the longest whitespace suffix. */
  function TrimEnd(s: string): (r: string)
    ensures |r| <= |s| && r == s[..|r|]
    ensures AllSpace(s[|r|..])
    ensures r == [] || !IsSpace(r[|r| - 1])
  {
    s[..SpaceRunBack(s, |s|)]
  }

  /** `String.prototype.trim`. */
  function Trim(s: string): (r: string)
    ensures IsTrimmed(r)
    ensures |r| <= |s|
    ensures exists i, j :: 0 <= i <= j <= |s| && r == s[i..j] && AllSpace(s[..i]) && AllSpace(s[j..])
  {
    var t := TrimStart(s);
    var r := TrimEnd(t);
    var i := |s| - |t|;
    assert r == s[i..i + |r|] by {
      assert t[..|r|] == s[i..i + |r|];
    }
    assert s[i + |r|..] == t[|r|..];
    r
  }

  /** Removing the whitespace after the last non-whitespace character gives
      exactly that prefix: the split of TrimEnd is unique. */
  lemma TrimEndAt(s: string, j: nat)
    requires 0 < j <= |s| && !IsSpace(s[j - 1]) && AllSpace(s[j..])
    ensures TrimEnd(s) == s[..j]
  {
    var r := TrimEnd(s);
    if |r| < j {
      assert false;
    } else if |r| > j {
      assert false;
    }
  }

  /** Trimming a trimmed string changes nothing. */
  lemma TrimOfTrimmed(s: string)
    requires IsTrimmed(s)
    ensures Trim(s) == s
  {
    if s != [] {
      assert TrimStart(s) == s;
      TrimEndAt(s, |s|);
    }
  }

  /** `trim` is idempotent. */
  lemma TrimIdempotent(s: string)
    ensures Trim(Trim(s)) == Trim(s)
  {
    TrimOfTrimmed(Trim(s));
  }

  /** The test `/WHERE[\s]*$/`: the text ends with `WHERE` followed only by
      whitespace. The match is case-sensitive. */
  predicate EndsWithWhere(s: string) {
    HasSuffix(TrimEnd(s), "WHERE")
  }

  /** EndsWithWhere agrees with the regular expression's own reading: some
      occurrence of `WHERE` is followed by whitespace up to the end. */
  lemma EndsWithWhereIff(s: string)
    ensures EndsWithWhere(s) <==>
            exists j :: 0 <= j <= |s| && HasSuffix(s[..j], "WHERE") && AllSpace(s[j..])
  {
    var t := TrimEnd(s);
    if EndsWithWhere(s) {
      assert s[..|t|] == t;
      assert HasSuffix(s[..|t|], "WHERE") && AllSpace(s[|t|..]);
    }
    if exists j :: 0 <= j <= |s| && HasSuffix(s[..j], "WHERE") && AllSpace(s[j..]) {
      var j :| 0 <= j <= |s| && HasSuffix(s[..j], "WHERE") && AllSpace(s[j..]);
      assert s[..j][j - 1] == 'E';
      TrimEndAt(s, j);
    }
  }

  /** `Array.prototype.join`. */
  function Join(parts: seq<string>, sep: string): (r: string)
    ensures parts == [] ==> r == ""
    ensures |parts| == 1 ==> r == parts[0]
  {
    if parts == [] then ""
    else if |parts| == 1 then parts[0]
    else parts[0] + sep + Join(parts[1..], sep)
  }

  /** Every part followed by `sep`, all concatenated: what `+=` of part and
      joiner in a loop builds. */
  function Terminated(parts: seq<string>, sep: string): (r: string)
    ensures |r| >= |parts| * |sep|
  {
    if parts == [] then "" else parts[0] + sep + Terminated(parts[1..], sep)
  }

  /** A terminated list is the joined list plus one trailing separator. */
  lemma {:induction false} TerminatedIsJoin(parts: seq<string>, sep: string)
    requires parts != []
    ensures Terminated(parts, sep) == Join(parts, sep) + sep
  {
    if |parts| > 1 {
      TerminatedIsJoin(parts[1..], sep);
    }
  }

  /** JavaScript's `s.slice(0, -n)`: everything but the last `n` characters,
      or nothing when `s` is shorter. `-0` is `0`, so `slice(0, -0)` is
      empty too. */
  function DropLast(s: string, n: nat): (r: string)
    ensures 0 < n <= |s| ==> r + s[|s| - n..] == s
    ensures n == 0 || |s| < n ==> r == ""
  {
    if 0 < n <= |s| then s[..|s| - n] else ""
  }
}
