/** The execution side of `db(sql, param, callback)` (db.js:167-264): how the
    arguments are normalised, which delivery mode the callback selects, the
    buffered completion, and the streaming session with its backpressure
    counter. The pool, the connection and its event emitter belong to the
    driver; here they appear only as the events they deliver and as the
    effects the core has on them. */
module Execution {
  import opened Values
  import Placeholders
  import Where

  /** The no-op callback `noop` (db.js:23). */
  const Noop := Func("noop")

  /** What the core does to the outside world, in order. */
  datatype Effect =
    | RowDelivered        // callback.row(row, ack)
    | Pause               // connection.pause()
    | Resume              // connection.resume()
    | Release             // connection.release()
    | EndCalled           // callback.end()
    | CallbackInvoked     // callback(data), buffered mode
    | Thrown(fault: Fault)

  /** `param` and `callback` after the normalisation at db.js:170-182;
      `None` is `undefined`. */
  datatype Args = Args(param: Option<Value>, callback: Option<Value>)

  function Arg(given: seq<Value>, k: nat): Option<Value> {
    if k < |given| then Some(given[k]) else None
  }

  /** db.js:170-182, for a call `db(sql, ...given)`. With exactly two
      arguments, an array `param` gets the callback `noop`, and a function or
      plain object `param` becomes the callback while `param` becomes `[]`. */
  function NormalizeArgs(given: seq<Value>): (r: Args)
    ensures |given| != 1 ==> r == Args(Arg(given, 0), Arg(given, 1))
    ensures |given| == 1 && given[0].Arr? ==> r == Args(Some(given[0]), Some(Noop))
    ensures |given| == 1 && (given[0].Func? || given[0].Obj?) ==> r == Args(Some(Arr([])), Some(given[0]))
    ensures |given| == 1 && !(given[0].Arr? || given[0].Func? || given[0].Obj?) ==>
              r == Args(Some(given[0]), None)
  {
    var param := Arg(given, 0);
    var callback := Arg(given, 1);
    if 1 + |given| != 2 then Args(param, callback)
    else
      var callback := if param.value.Arr? then Some(Noop) else callback;
      if param.value.Func? || param.value.Obj? then Args(Some(Arr([])), param)
      else Args(param, callback)
  }

  /** The mode `db` picks once it has a connection (db.js:207). */
  datatype Delivery = Streaming(handler: seq<(string, Value)>) | Buffered(callback: Option<Value>)

  function DeliveryOf(callback: Option<Value>): (d: Delivery)
    ensures d.Streaming? <==> callback.Some? && callback.value.Obj?
  {
    match callback
    case Some(Obj(fields)) => Streaming(fields)
    case _ => Buffered(callback)
  }

  /** Two-argument calls: a plain object selects streaming with no inserts,
      an array or a function selects buffered delivery to a callable
      callback, and anything else leaves the callback `undefined`. */
  lemma TwoArgumentDelivery(p: Value)
    ensures p.Obj? ==> NormalizeArgs([p]) == Args(Some(Arr([])), Some(p))
                       && DeliveryOf(NormalizeArgs([p]).callback) == Streaming(p.fields)
    ensures (p.Arr? || p.Func?) ==>
              var a := NormalizeArgs([p]);
              a.callback.Some? && a.callback.value.Func? && DeliveryOf(a.callback).Buffered?
    ensures !(p.Arr? || p.Func? || p.Obj?) ==> NormalizeArgs([p]).callback.None?
  {
  }

  /** The limit on unacknowledged rows; `Unbounded` is `Infinity`. */
  datatype Limit = Unbounded | AtMost(n: int)

  /** `concurrency < max`. */
  predicate Below(limit: Limit, c: int) {
    limit.Unbounded? || c < limit.n
  }

  /** `max = callback.concurrency || Infinity` (db.js:209): an absent or
      falsy option, 0 included, means no limit. */
  function LimitOf(option: Option<Value>): (l: Limit)
    ensures option.Some? && option.value.Num? && option.value.n != 0 ==> l == AtMost(option.value.n)
    ensures option.None? || !Truthy(option.value) ==> l == Unbounded
  {
    match option
    case Some(Num(n)) => if n != 0 then AtMost(n) else Unbounded
    case _ => Unbounded
  }

  /** The streaming handler as db.js:208-209 and 240 read it. */
  datatype StreamOptions = StreamOptions(row: Value, limit: Limit, hasEnd: bool)

  /** `callback.row || callback.result || noop`. */
  function RowHandler(handler: seq<(string, Value)>): (f: Value)
    ensures Lookup(handler, "row").Some? && Truthy(Lookup(handler, "row").value) ==>
              f == Lookup(handler, "row").value
    ensures (Lookup(handler, "row").None? || !Truthy(Lookup(handler, "row").value)) &&
            (Lookup(handler, "result").None? || !Truthy(Lookup(handler, "result").value)) ==>
              f == Noop
    ensures (Lookup(handler, "row").None? || !Truthy(Lookup(handler, "row").value)) &&
            Lookup(handler, "result").Some? && Truthy(Lookup(handler, "result").value) ==>
              f == Lookup(handler, "result").value
    ensures Truthy(f)
  {
    var row := Lookup(handler, "row");
    var result := Lookup(handler, "result");
    if row.Some? && Truthy(row.value) then row.value
    else if result.Some? && Truthy(result.value) then result.value
    else Noop
  }

  function OptionsOf(handler: seq<(string, Value)>): (o: StreamOptions)
    ensures o.row == RowHandler(handler)
    ensures o.hasEnd <==> Lookup(handler, "end").Some? && Lookup(handler, "end").value.Func?
    ensures o.limit == LimitOf(Lookup(handler, "concurrency"))
  {
    var end := Lookup(handler, "end");
    StreamOptions(RowHandler(handler), LimitOf(Lookup(handler, "concurrency")),
                  end.Some? && end.value.Func?)
  }

  /** What ends a call before its first event (db.js:195-212, 248): the pool
      may report an error, and then the formatter runs inside
      `connection.query` and may throw. Both throws come before anything is
      released, and no session or completion callback exists after them. */
  function Startup(connectionFailed: bool, formatted: Result<string>): (r: Option<Fault>)
    ensures connectionFailed ==> r == Some(ConnectionFault)
    ensures !connectionFailed ==> (r.Some? <==> formatted.Err?)
    ensures !connectionFailed && formatted.Err? ==> r == Some(formatted.fault)
  {
    if connectionFailed then Some(ConnectionFault)
    else if formatted.Err? then Some(formatted.fault)
    else None
  }

  /** The effects of one buffered call (db.js:195-201, 248-262), given the
      formatter's outcome: a throw at startup ends the call with nothing
      released; otherwise the connection is released first, then the query
      error is thrown or the callback is called (which throws when the
      callback is not a function). */
  function BufferedRun(connectionFailed: bool, formatted: Result<string>, queryFailed: bool,
                       callback: Option<Value>): (e: seq<Effect>)
    requires DeliveryOf(callback).Buffered?
    ensures Startup(connectionFailed, formatted).Some? ==>
              e == [Thrown(Startup(connectionFailed, formatted).value)]
    ensures Release in e <==> Startup(connectionFailed, formatted).None?
    ensures Startup(connectionFailed, formatted).None? ==>
              |e| == 2 && e[0] == Release && multiset(e)[Release] == 1
    ensures Startup(connectionFailed, formatted).None? && queryFailed ==> e[1] == Thrown(QueryFault)
    ensures Startup(connectionFailed, formatted).None? && !queryFailed ==>
              e[1] == (if callback.Some? && callback.value.Func? then CallbackInvoked else Thrown(NotAFunction))
    ensures CallbackInvoked in e <==>
              Startup(connectionFailed, formatted).None? && !queryFailed && callback.Some? && callback.value.Func?
  {
    match Startup(connectionFailed, formatted)
    case Some(f) => [Thrown(f)]
    case None =>
      if queryFailed then [Release, Thrown(QueryFault)]
      else if callback.Some? && callback.value.Func? then [Release, CallbackInvoked]
      else [Release, Thrown(NotAFunction)]
  }

  /** How a streaming call begins (db.js:195-212): a startup throw ends it
      before any event handler is attached, so no session exists; otherwise
      a session starts with the options read from the handler object. */
  function StreamingStart(connectionFailed: bool, formatted: Result<string>,
                          handler: seq<(string, Value)>): (r: Result<StreamOptions>)
    ensures r.Err? <==> Startup(connectionFailed, formatted).Some?
    ensures r.Err? ==> r.fault == Startup(connectionFailed, formatted).value
    ensures r.Ok? ==> r.value.row == RowHandler(handler) && r.value.limit == LimitOf(Lookup(handler, "concurrency"))
  {
    match Startup(connectionFailed, formatted)
    case Some(f) => Err(f)
    case None => Ok(OptionsOf(handler))
  }

  /** `db(sql, 5)` with a `?` in `sql`: the scalar stays `param`, the
      callback is undefined, and the formatter's TypeError is thrown before
      the connection is released, so it never is. */
  lemma ScalarParamNeverReleases(sql: string, n: int, esc: Escaper, queryFailed: bool)
    requires Placeholders.Marks(sql) > 0
    ensures NormalizeArgs([Num(n)]) == Args(Some(Num(n)), None)
    ensures Placeholders.Format(sql, Some(Num(n)), esc) == Err(InsertsNotArray)
    ensures BufferedRun(false, Placeholders.Format(sql, Some(Num(n)), esc), queryFailed, None) ==
            [Thrown(InsertsNotArray)]
  {
  }

  /** `db("SELECT * FROM t WHERE ?", [{"||": 1}], f)`: `escape.WHERE`
      throws inside the formatter, so the connection is never released and
      `f` never runs. */
  lemma OrKeyNeverReleases(esc: Escaper, f: string)
    ensures NormalizeArgs([Arr([Obj([("||", Num(1))])]), Func(f)]) ==
            Args(Some(Arr([Obj([("||", Num(1))])])), Some(Func(f)))
    ensures BufferedRun(false, Placeholders.Format(Placeholders.WherePrefix + "?", Some(Arr([Obj([("||", Num(1))])])), esc),
                        false, Some(Func(f))) == [Thrown(OrSyntaxNotReady)]
  {
    var v := Obj([("||", Num(1))]);
    assert Where.HasOrKey(v.fields) by {
      assert v.fields[0].0 == "||";
    }
    Placeholders.WherePrefixLayout();
    Placeholders.WherePrefixWhere();
    Placeholders.RenderOutcome(Placeholders.WherePrefix, v, esc);
    Placeholders.SubstSingle(Placeholders.WherePrefix, v, esc);
  }

  /** The state of one streaming call (db.js:207-243). `concurrency` counts
      rows delivered and not yet acknowledged, `paused` stands for the
      connection being paused, `released` for it having been released.
      A row arrives as `BeginRow` (the counter goes up and the row handler
      runs), any acknowledgements the handler makes synchronously, and
      `EndRow` (the pause check at db.js:227). */
  class StreamSession {
    const row: Value
    const limit: Limit
    const hasEnd: bool
    var concurrency: int
    var paused: bool
    var delivering: bool
    var released: bool
    var failed: bool
    var effects: seq<Effect>
    ghost var rows: nat
    ghost var acks: nat

    ghost predicate Valid()
      reads this
    {
      && concurrency == rows - acks
      && (rows == 0 ==> acks == 0)
      && (delivering ==> !paused)
      && (limit.Unbounded? ==> !paused)
      && (limit.AtMost? && !paused && !delivering ==> concurrency < limit.n || rows == 0)
      && (limit.AtMost? && limit.n >= 1 ==> concurrency <= limit.n)
      && multiset(effects)[RowDelivered] == rows
      && multiset(effects)[Release] == (if released then 1 else 0)
      && (released ==> !delivering)
    }

    constructor (options: StreamOptions)
      ensures Valid()
      ensures row == options.row && limit == options.limit && hasEnd == options.hasEnd
      ensures concurrency == 0 && !paused && !delivering && !released && !failed
      ensures effects == [] && rows == 0
    {
      row := options.row;
      limit := options.limit;
      hasEnd := options.hasEnd;
      concurrency := 0;
      paused := false;
      delivering := false;
      released := false;
      failed := false;
      effects := [];
      rows := 0;
      acks := 0;
    }

    /** A `result` event: the counter goes up and the row handler is called.
        The driver emits no row while the connection is paused or after it
        ended. */
    method BeginRow()
      requires Valid() && !paused && !delivering && !released && !failed
      modifies this
      ensures Valid() && delivering
      ensures concurrency == old(concurrency) + 1 && rows == old(rows) + 1 && acks == old(acks)
      ensures effects == old(effects) + [RowDelivered]
      ensures paused == old(paused) && released == old(released) && failed == old(failed)
      ensures limit.AtMost? && limit.n >= 1 ==> concurrency <= limit.n
    {
      concurrency := concurrency + 1;
      rows := rows + 1;
      effects := effects + [RowDelivered];
      delivering := true;
    }

    /** The acknowledgement function handed to the row handler
        (db.js:219-225): the counter goes down and the connection is resumed
        whenever the counter is below the limit. It has no guard against
        being called twice. */
    method Ack()
      requires Valid() && rows > 0
      modifies this
      ensures Valid()
      ensures concurrency == old(concurrency) - 1 && acks == old(acks) + 1 && rows == old(rows)
      ensures paused == (old(paused) && !Below(limit, concurrency))
      ensures effects == old(effects) + (if Below(limit, concurrency) then [Resume] else [])
      ensures delivering == old(delivering) && released == old(released) && failed == old(failed)
    {
      concurrency := concurrency - 1;
      acks := acks + 1;
      if Below(limit, concurrency) {
        paused := false;
        effects := effects + [Resume];
      }
    }

    /** The pause check after the row handler returns (db.js:227-229). */
    method EndRow()
      requires Valid() && delivering
      modifies this
      ensures Valid() && !delivering
      ensures paused == (limit.AtMost? && concurrency >= limit.n)
      ensures effects == old(effects) + (if paused then [Pause] else [])
      ensures concurrency == old(concurrency) && rows == old(rows) && acks == old(acks)
      ensures released == old(released) && failed == old(failed)
    {
      delivering := false;
      if !Below(limit, concurrency) {
        paused := true;
        effects := effects + [Pause];
      }
    }

    /** The `end` event (db.js:232-243): the connection is released, then
        `callback.end` is called if it is a function. Unacknowledged rows do
        not delay it, and it has no guard, so it also releases after an
        `error`. */
    method End()
      requires Valid() && !paused && !delivering && !released
      modifies this
      ensures Valid() && released
      ensures effects == old(effects) + [Release] + (if hasEnd then [EndCalled] else [])
      ensures concurrency == old(concurrency) && paused == old(paused) && failed == old(failed)
      ensures rows == old(rows) && acks == old(acks)
    {
      released := true;
      effects := effects + [Release];
      if hasEnd {
        effects := effects + [EndCalled];
      }
    }

    /** The `error` event (db.js:213-215): the error is thrown and the
        connection is not released. */
    method Error()
      requires Valid() && !delivering && !released && !failed
      modifies this
      ensures Valid() && failed && !released
      ensures effects == old(effects) + [Thrown(QueryFault)]
      ensures multiset(effects)[Release] == 0
      ensures concurrency == old(concurrency) && paused == old(paused) && delivering == old(delivering)
      ensures rows == old(rows) && acks == old(acks)
    {
      failed := true;
      effects := effects + [Thrown(QueryFault)];
    }
  }

  /** With a limit of 2, two unacknowledged rows pause the connection and
      one acknowledgement resumes it. */
  method LimitTwoSession()
  {
    var s := new StreamSession(StreamOptions(Noop, AtMost(2), true));
    s.BeginRow();
    s.EndRow();
    assert !s.paused;
    s.BeginRow();
    s.EndRow();
    assert s.paused && s.concurrency == 2;
    s.Ack();
    assert !s.paused && s.concurrency == 1;
  }

  /** An `end` with one row still unacknowledged releases the connection
      once and then calls `end`. */
  method EndWithRowPending()
  {
    var s := new StreamSession(StreamOptions(Noop, AtMost(2), true));
    s.BeginRow();
    s.EndRow();
    s.End();
    assert s.concurrency == 1;
    assert s.effects == [RowDelivered, Release, EndCalled];
  }

  /** The driver emits `end` after `error` too: the error is thrown, and the
      `end` handler still releases the connection once and calls `end`. */
  method ErrorThenEnd()
  {
    var s := new StreamSession(StreamOptions(Noop, Unbounded, true));
    s.Error();
    s.End();
    assert s.released && s.failed;
    assert s.effects == [Thrown(QueryFault), Release, EndCalled];
  }

  /** The acknowledgement has no guard against a released connection: one
      made after `end` still resumes a connection already back in the
      pool. */
  method AckAfterEnd()
  {
    var s := new StreamSession(StreamOptions(Noop, Unbounded, false));
    s.BeginRow();
    s.EndRow();
    s.End();
    s.Ack();
    assert s.released && s.concurrency == 0;
    assert s.effects == [RowDelivered, Release, Resume];
  }
}
