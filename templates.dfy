/** The block scanner of `db.load` (db.js:266-303). The file's contents are
    searched repeatedly for the leftmost match of `/\/\*([a-zA-Z]+)\*\/([^\/]+)/`,
    each search starting where the previous match ended, and every match
    registers its name. Reading the file is outside this model: the scanner
    works on the contents it is given. */
module Templates {
  import opened Text
  import opened Values

  predicate IsLetter(c: char) {
    'a' <= c <= 'z' || 'A' <= c <= 'Z'
  }

  predicate IsName(s: string) {
    |s| > 0 && forall i :: 0 <= i < |s| ==> IsLetter(s[i])
  }

  predicate NoSlash(s: string) {
    forall i :: 0 <= i < |s| ==> s[i] != '/'
  }

  /** One regex match: `/*name*/raw` at `start..end`. */
  datatype Block = Block(start: nat, name: string, raw: string, end: nat)

  /** The end of the longest run of letters starting at `i`. */
  function LetterRun(s: string, i: nat): (j: nat)
    requires i <= |s|
    ensures i <= j <= |s|
    ensures forall k :: i <= k < j ==> IsLetter(s[k])
    ensures j == |s| || !IsLetter(s[j])
    decreases |s| - i
  {
    if i < |s| && IsLetter(s[i]) then LetterRun(s, i + 1) else i
  }

  /** The end of the longest run of characters other than `/` starting at `i`. */
  function BodyRun(s: string, i: nat): (j: nat)
    requires i <= |s|
    ensures i <= j <= |s|
    ensures forall k :: i <= k < j ==> s[k] != '/'
    ensures j == |s| || s[j] == '/'
    decreases |s| - i
  {
    if i < |s| && s[i] != '/' then BodyRun(s, i + 1) else i
  }

  /** A match of the block pattern starting exactly at `p`. Both groups are
      greedy and nothing follows the body, so a match at `p` is unique. */
  function MatchAt(s: string, p: nat): (m: Option<Block>)
    ensures m.Some? ==>
              && m.value.start == p && p < m.value.end <= |s|
              && IsName(m.value.name) && |m.value.raw| > 0 && NoSlash(m.value.raw)
              && s[p..m.value.end] == "/*" + m.value.name + "*/" + m.value.raw
              && (m.value.end == |s| || s[m.value.end] == '/')
  {
    if p + 2 <= |s| && s[p] == '/' && s[p + 1] == '*' then
      var q := LetterRun(s, p + 2);
      if q > p + 2 && q + 2 <= |s| && s[q] == '*' && s[q + 1] == '/' then
        var e := BodyRun(s, q + 2);
        if e > q + 2 then
          assert s[p..e] == "/*" + s[p + 2..q] + "*/" + s[q + 2..e];
          Some(Block(p, s[p + 2..q], s[q + 2..e], e))
        else None
      else None
    else None
  }

  /** A run of letters ended by a non-letter is exactly what LetterRun finds. */
  lemma LetterRunAt(s: string, i: nat, j: nat)
    requires i <= j < |s|
    requires forall k :: i <= k < j ==> IsLetter(s[k])
    requires !IsLetter(s[j])
    ensures LetterRun(s, i) == j
  {
  }

  /** BodyRun extends over every stretch without `/`. */
  lemma BodyRunCovers(s: string, i: nat, j: nat)
    requires i <= j <= |s|
    requires forall k :: i <= k < j ==> s[k] != '/'
    ensures BodyRun(s, i) >= j
  {
  }

  /** The characters of an occurrence of `/*name*/raw`. */
  lemma OccurrenceChars(s: string, p: nat, name: string, raw: string)
    requires p + 4 + |name| + |raw| <= |s|
    requires s[p..p + 4 + |name| + |raw|] == "/*" + name + "*/" + raw
    ensures s[p] == '/' && s[p + 1] == '*'
    ensures s[p + 2..p + 2 + |name|] == name
    ensures s[p + 2 + |name|] == '*' && s[p + 3 + |name|] == '/'
    ensures s[p + 4 + |name|..p + 4 + |name| + |raw|] == raw
  {
    var w := "/*" + name + "*/" + raw;
    var q := p + 2 + |name|;
    forall k | 0 <= k < |name| ensures s[p + 2 + k] == name[k] {
      assert s[p + 2 + k] == s[p..p + |w|][2 + k] == w[2 + k];
    }
    assert s[p + 2..q] == name;
    forall k | 0 <= k < |raw| ensures s[q + 2 + k] == raw[k] {
      assert s[q + 2 + k] == s[p..p + |w|][|name| + 4 + k] == w[|name| + 4 + k];
    }
    assert s[q + 2..q + 2 + |raw|] == raw;
    assert s[p] == s[p..p + |w|][0] == w[0];
    assert s[p + 1] == s[p..p + |w|][1] == w[1];
    assert s[q] == s[p..p + |w|][q - p] == w[q - p];
    assert s[q + 1] == s[p..p + |w|][q + 1 - p] == w[q + 1 - p];
  }

  /** The match at `p` once its delimiters and name run are known. */
  lemma MatchAtUnfold(s: string, p: nat, q: nat)
    requires p + 2 < q && q + 2 < |s|
    requires s[p] == '/' && s[p + 1] == '*' && s[q] == '*' && s[q + 1] == '/'
    requires LetterRun(s, p + 2) == q && BodyRun(s, q + 2) > q + 2
    ensures MatchAt(s, p) == Some(Block(p, s[p + 2..q], s[q + 2..BodyRun(s, q + 2)], BodyRun(s, q + 2)))
  {
  }

  /** Any occurrence of `/*name*/raw` that fits the pattern is found by
      MatchAt, with the same name and a body extending `raw`. */
  lemma MatchAtComplete(s: string, p: nat, name: string, raw: string)
    requires IsName(name) && |raw| > 0 && NoSlash(raw)
    requires p + 4 + |name| + |raw| <= |s|
    requires s[p..p + 4 + |name| + |raw|] == "/*" + name + "*/" + raw
    ensures MatchAt(s, p).Some?
    ensures MatchAt(s, p).value.name == name
    ensures |raw| <= |MatchAt(s, p).value.raw| && MatchAt(s, p).value.raw[..|raw|] == raw
  {
    var q := p + 2 + |name|;
    OccurrenceChars(s, p, name, raw);
    forall k | p + 2 <= k < q ensures IsLetter(s[k]) {
      assert s[k] == s[p + 2..q][k - p - 2];
    }
    LetterRunAt(s, p + 2, q);
    forall k | q + 2 <= k < q + 2 + |raw| ensures s[k] != '/' {
      assert s[k] == s[q + 2..q + 2 + |raw|][k - q - 2];
    }
    BodyRunCovers(s, q + 2, q + 2 + |raw|);
    var e := BodyRun(s, q + 2);
    MatchAtUnfold(s, p, q);
    assert s[q + 2..e][..|raw|] == s[q + 2..q + 2 + |raw|];
  }

  /** The leftmost match at or after `from`: what `sqlRe.exec(contents)`
      returns when `lastIndex` is `from`. */
  function FindMatch(s: string, from: nat): (m: Option<Block>)
    ensures m.Some? ==> from <= m.value.start && MatchAt(s, m.value.start) == m
    ensures m.Some? ==> forall q :: from <= q < m.value.start ==> MatchAt(s, q).None?
    ensures m.None? ==> forall q :: from <= q ==> MatchAt(s, q).None?
    decreases |s| - from
  {
    if from >= |s| then
      assert forall q :: from <= q ==> MatchAt(s, q).None?;
      None
    else if MatchAt(s, from).Some? then MatchAt(s, from)
    else FindMatch(s, from + 1)
  }

  /** Every block the `while` loop of db.js:297-300 visits, from `lastIndex`
      `from` on. */
  function Scan(s: string, from: nat): (r: seq<Block>)
    ensures r != [] ==> from + |r| <= |s|
    decreases |s| - from
  {
    match FindMatch(s, from)
    case None => []
    case Some(b) => [b] + Scan(s, b.end)
  }

  /** A registered entry of `queryObject`: the driver itself under `query`,
      or a bound query whose statement is the trimmed body, with its `.sql`
      copy. */
  datatype Member = Driver | Query(statement: string, sql: string)

  /** `trim().replace(/;$/, '')`, without the trim: at most one trailing `;`
      goes. */
  function StripSemicolon(s: string): (r: string)
    ensures HasSuffix(s, ";") ==> r + ";" == s
    ensures !HasSuffix(s, ";") ==> r == s
  {
    if |s| > 0 && s[|s| - 1] == ';' then s[..|s| - 1] else s
  }

  /** `makeQuery(name, match[2].trim())` (db.js:274-292), debug statistics
      aside. */
  function MakeQuery(raw: string): (m: Member)
    ensures m.Query? && m.statement == Trim(raw) && m.sql == StripSemicolon(Trim(raw))
  {
    var statement := Trim(raw);
    TrimIdempotent(raw);
    Query(statement, StripSemicolon(Trim(statement)))
  }

  const Initial: map<string, Member> := map["query" := Driver]

  /** The registry after registering `blocks` in order over `reg`, each
      block's entry made from its body by `make`. */
  function Register(reg: map<string, Member>, blocks: seq<Block>, make: string -> Member): map<string, Member>
    decreases |blocks|
  {
    if blocks == [] then reg else Register(reg[blocks[0].name := make(blocks[0].raw)], blocks[1..], make)
  }

  /** The object `db.load` returns, for the given file contents. */
  function Registry(contents: string): (r: map<string, Member>)
    ensures r.Keys == {"query"} + set b | b in Scan(contents, 0) :: b.name
  {
    RegisterKeys(Initial, Scan(contents, 0), MakeQuery);
    Register(Initial, Scan(contents, 0), MakeQuery)
  }

  /** Registration adds exactly the blocks' names to the keys. */
  lemma {:induction false} RegisterKeys(reg: map<string, Member>, blocks: seq<Block>, make: string -> Member)
    ensures Register(reg, blocks, make).Keys == reg.Keys + set b | b in blocks :: b.name
    decreases |blocks|
  {
    if blocks != [] {
      var reg' := reg[blocks[0].name := make(blocks[0].raw)];
      RegisterKeys(reg', blocks[1..], make);
      var names := set b | b in blocks :: b.name;
      var rest := set b | b in blocks[1..] :: b.name;
      assert names == {blocks[0].name} + rest by {
        forall n | n in names ensures n in {blocks[0].name} + rest {
          var b :| b in blocks && b.name == n;
          if b != blocks[0] {
            var k :| 0 <= k < |blocks| && blocks[k] == b;
            assert blocks[1..][k - 1] == b;
          }
        }
        forall n | n in rest ensures n in names {
          var b :| b in blocks[1..] && b.name == n;
          var k :| 0 <= k < |blocks[1..]| && blocks[1..][k] == b;
          assert blocks[k + 1] == b;
        }
      }
    }
  }

  /** `db.load(file)`, for the file's contents: a loop driven by the regex's
      `lastIndex`, registering each match. */
  method Load(contents: string) returns (queryObject: map<string, Member>)
    ensures queryObject == Registry(contents)
  {
    queryObject := Initial;
    var lastIndex := 0;
    var found := FindMatch(contents, lastIndex);
    while found.Some?
      invariant lastIndex <= |contents|
      invariant found == FindMatch(contents, lastIndex)
      invariant Registry(contents) == Register(queryObject, Scan(contents, lastIndex), MakeQuery)
      decreases |contents| - lastIndex
    {
      var b := found.value;
      queryObject := queryObject[b.name := MakeQuery(b.raw)];
      lastIndex := b.end;
      found := FindMatch(contents, lastIndex);
    }
  }

  /** The position where the search after the blocks of `Scan(s, from)`
      starts: the end of the last block. */
  function ScanEnd(s: string, from: nat): nat
    decreases |s| - from
  {
    match FindMatch(s, from)
    case None => from
    case Some(b) => ScanEnd(s, b.end)
  }

  /** Scan finds well-formed, ordered, non-overlapping blocks. */
  lemma {:induction false} ScanSound(s: string, from: nat)
    ensures forall k :: 0 <= k < |Scan(s, from)| ==>
              from <= Scan(s, from)[k].start && MatchAt(s, Scan(s, from)[k].start) == Some(Scan(s, from)[k])
    ensures forall k :: 0 < k < |Scan(s, from)| ==> Scan(s, from)[k - 1].end <= Scan(s, from)[k].start
    decreases |s| - from
  {
    match FindMatch(s, from) {
      case None =>
      case Some(b) =>
        ScanSound(s, b.end);
        var rest := Scan(s, b.end);
        assert Scan(s, from) == [b] + rest;
        forall k | 0 < k < |Scan(s, from)|
          ensures Scan(s, from)[k] == rest[k - 1]
          ensures from <= Scan(s, from)[k].start && Scan(s, from)[k - 1].end <= Scan(s, from)[k].start
        {
          if k > 1 {
            assert Scan(s, from)[k - 1] == rest[k - 2];
          }
        }
    }
  }

  /** No match is skipped: none before the first block, none between two
      consecutive blocks, so each block is the leftmost match after the
      previous one. */
  lemma {:induction false} ScanLeftmost(s: string, from: nat)
    ensures |Scan(s, from)| > 0 ==> forall q :: from <= q < Scan(s, from)[0].start ==> MatchAt(s, q).None?
    ensures forall k, q :: 0 < k < |Scan(s, from)| && Scan(s, from)[k - 1].end <= q < Scan(s, from)[k].start ==>
              MatchAt(s, q).None?
    decreases |s| - from
  {
    match FindMatch(s, from) {
      case None =>
      case Some(b) =>
        ScanLeftmost(s, b.end);
        var rest := Scan(s, b.end);
        assert Scan(s, from) == [b] + rest;
        forall k, q | 0 < k < |Scan(s, from)| && Scan(s, from)[k - 1].end <= q < Scan(s, from)[k].start
          ensures MatchAt(s, q).None?
        {
          assert Scan(s, from)[k] == rest[k - 1];
          if k > 1 {
            assert Scan(s, from)[k - 1] == rest[k - 2];
          }
        }
    }
  }

  /** No match lies after the last block: the search that ends the loop
      finds nothing. */
  lemma {:induction false} ScanComplete(s: string, from: nat)
    ensures |Scan(s, from)| > 0 ==> ScanEnd(s, from) == Scan(s, from)[|Scan(s, from)| - 1].end
    ensures from <= ScanEnd(s, from)
    ensures forall q :: ScanEnd(s, from) <= q ==> MatchAt(s, q).None?
    decreases |s| - from
  {
    match FindMatch(s, from) {
      case None =>
      case Some(b) =>
        ScanComplete(s, b.end);
        assert Scan(s, from) == [b] + Scan(s, b.end);
    }
  }

  /** The index of the last block named `name`, if any. */
  function LastWith(blocks: seq<Block>, name: string): (r: Option<nat>)
    ensures r.Some? ==> r.value < |blocks| && blocks[r.value].name == name
    ensures r.Some? ==> forall j :: r.value < j < |blocks| ==> blocks[j].name != name
    ensures r.None? ==> forall j :: 0 <= j < |blocks| ==> blocks[j].name != name
  {
    if blocks == [] then None
    else
      match LastWith(blocks[1..], name)
      case Some(i) =>
        assert forall j :: i + 1 < j < |blocks| ==> blocks[j] == blocks[1..][j - 1];
        Some(i + 1)
      case None =>
        assert forall j :: 0 < j < |blocks| ==> blocks[j] == blocks[1..][j - 1];
        if blocks[0].name == name then Some(0) else None
  }

  /** Registration: the last block with a given name decides its entry, so
      a later block overrides an earlier one. */
  lemma {:induction false} RegisterLast(reg: map<string, Member>, blocks: seq<Block>, make: string -> Member, name: string)
    requires LastWith(blocks, name).Some?
    ensures name in Register(reg, blocks, make)
    ensures Register(reg, blocks, make)[name] == make(blocks[LastWith(blocks, name).value].raw)
    decreases |blocks|
  {
    var reg' := reg[blocks[0].name := make(blocks[0].raw)];
    assert Register(reg, blocks, make) == Register(reg', blocks[1..], make);
    match LastWith(blocks[1..], name) {
      case Some(i) =>
        RegisterLast(reg', blocks[1..], make, name);
        assert blocks[1..][i] == blocks[i + 1];
      case None =>
        RegisterUntouched(reg', blocks[1..], make, name);
    }
  }

  /** A name no block carries keeps its earlier entry, or stays absent. */
  lemma {:induction false} RegisterUntouched(reg: map<string, Member>, blocks: seq<Block>, make: string -> Member, name: string)
    requires LastWith(blocks, name).None?
    ensures name in Register(reg, blocks, make) <==> name in reg
    ensures name in reg ==> Register(reg, blocks, make)[name] == reg[name]
    decreases |blocks|
  {
    if blocks != [] {
      var reg' := reg[blocks[0].name := make(blocks[0].raw)];
      assert blocks[0].name != name;
      assert LastWith(blocks[1..], name).None? by {
        assert forall j :: 0 <= j < |blocks[1..]| ==> blocks[1..][j] == blocks[j + 1];
      }
      RegisterUntouched(reg', blocks[1..], make, name);
    }
  }

  /** In the object `db.load` returns, the last block with a given name
      decides its entry; `query` keeps the driver unless a block is named
      `query`. */
  lemma RegistryLast(contents: string, name: string)
    ensures LastWith(Scan(contents, 0), name).Some? ==>
              name in Registry(contents) &&
              Registry(contents)[name] == MakeQuery(Scan(contents, 0)[LastWith(Scan(contents, 0), name).value].raw)
    ensures LastWith(Scan(contents, 0), name).None? ==>
              (name in Registry(contents) <==> name == "query") &&
              (name == "query" ==> Registry(contents)[name] == Driver)
  {
    if LastWith(Scan(contents, 0), name).Some? {
      RegisterLast(Initial, Scan(contents, 0), MakeQuery, name);
    } else {
      RegisterUntouched(Initial, Scan(contents, 0), MakeQuery, name);
    }
  }

  /** A registered statement is trimmed and free of `/`, and its `.sql`
      copy is the statement with one trailing `;` removed. */
  predicate QueryShaped(m: Member) {
    m.Query? ==> IsTrimmed(m.statement) && NoSlash(m.statement) && m.sql == StripSemicolon(m.statement)
  }

  predicate RegistryShaped(reg: map<string, Member>) {
    forall n :: n in reg ==> IsName(n) && QueryShaped(reg[n])
  }

  lemma {:induction false} RegisterShape(reg: map<string, Member>, blocks: seq<Block>)
    requires RegistryShaped(reg)
    requires forall k :: 0 <= k < |blocks| ==> IsName(blocks[k].name) && NoSlash(blocks[k].raw)
    ensures RegistryShaped(Register(reg, blocks, MakeQuery))
    decreases |blocks|
  {
    if blocks != [] {
      var b := blocks[0];
      TrimNoSlash(b.raw);
      assert QueryShaped(MakeQuery(b.raw));
      var reg' := reg[b.name := MakeQuery(b.raw)];
      forall n | n in reg' ensures IsName(n) && QueryShaped(reg'[n]) {
        if n != b.name {
          assert reg'[n] == reg[n];
        }
      }
      forall k | 0 <= k < |blocks[1..]| ensures IsName(blocks[1..][k].name) && NoSlash(blocks[1..][k].raw) {
        assert blocks[1..][k] == blocks[k + 1];
      }
      RegisterShape(reg', blocks[1..]);
    }
  }

  /** Trimming keeps a slice of the text, so it adds no `/`. */
  lemma TrimNoSlash(s: string)
    requires NoSlash(s)
    ensures NoSlash(Trim(s))
  {
    var t := TrimStart(s);
    var d := |s| - |t|;
    forall i | 0 <= i < |t| ensures t[i] != '/' {
      assert t[i] == s[d + i];
    }
    var u := TrimEnd(t);
    forall i | 0 <= i < |u| ensures u[i] != '/' {
      assert u[i] == t[i];
    }
  }

  /** The object `db.load` returns: `query` plus letter-only names, each
      statement trimmed and free of `/`, each `.sql` copy the statement with
      one trailing `;` removed. */
  lemma RegistryShape(contents: string)
    ensures "query" in Registry(contents)
    ensures RegistryShaped(Registry(contents))
  {
    var blocks := Scan(contents, 0);
    ScanSound(contents, 0);
    forall k | 0 <= k < |blocks| ensures IsName(blocks[k].name) && NoSlash(blocks[k].raw) {
      assert MatchAt(contents, blocks[k].start) == Some(blocks[k]);
    }
    assert IsName("query");
    RegisterShape(Initial, blocks);
    RegistryLast(contents, "query");
  }
}
