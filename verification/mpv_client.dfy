/**
 * The player client's bookkeeping (src/mpv/mod.rs:81-186): the event buffer
 * filled during command round-trips, its FIFO application in `update`, the
 * observed-property cache, observe-id allocation and `get_property`.
 *
 * The socket is a sequence of inbound JSON lines. A blocking read past the
 * end of that sequence is end-of-file; a non-blocking read past it is
 * would-block. Outbound commands are collected in `written`.
 */
module MpvClient {
  import opened Wrappers
  import opened Json
  import opened MpvCommand

  datatype Client = Client(cache: map<string, Json>, nextObserveId: int, buffer: seq<Event>, written: seq<Command>)

  /** The initial client: empty cache, id 0, empty buffer. */
  function Initial(): (c: Client)
    ensures c.cache == map[] && c.nextObserveId == 0 && c.buffer == [] && c.written == []
  {
    Client(map[], 0, [], [])
  }

  datatype Error = Eof | Malformed(line: Json) | CommandFailed(error: string)

  /** A read: the client after it, the lines it left unread, and what it produced. */
  datatype Read<T> = Read(client: Client, rest: seq<Json>, result: Result<T, Error>)

  /** The number of events a step appended to the buffer. */
  function Pushed(before: Client, after: Client): int {
    |after.buffer| - |before.buffer|
  }

  /**
   * `read_response()`: blocking reads until a response. Every event read on
   * the way is appended to the buffer in order, also when the read then
   * fails; an undecodable line or the end of input is an error.
   */
  function ReadResponse<T>(c: Client, lines: seq<Json>, decode: Json -> Option<T>): (r: Read<Response<T>>)
    ensures r.client == c.(buffer := r.client.buffer)
    ensures 0 <= Pushed(c, r.client) <= |lines| && r.client.buffer[..|c.buffer|] == c.buffer
    ensures r.result == Err(Eof) <==> Pushed(c, r.client) == |lines|
    ensures r.result.Err? ==> r.result.error.Eof? || r.result.error.Malformed?
    decreases |lines|
  {
    if |lines| == 0 then Read(c, [], Err(Eof))
    else match DecodeLine(lines[0], decode)
      case None => Read(c, lines[1..], Err(Malformed(lines[0])))
      case Some(IsResponse(resp)) => Read(c, lines[1..], Ok(resp))
      case Some(IsEvent(e)) =>
        var c' := c.(buffer := c.buffer + [e]);
        var r := ReadResponse(c', lines[1..], decode);
        assert r.client.buffer[..|c.buffer|] == r.client.buffer[..|c'.buffer|][..|c.buffer|];
        r
  }

  /** The events `read_response()` buffered are the decoded leading lines, in order. */
  lemma {:induction false} ReadResponseEvents<T>(c: Client, lines: seq<Json>, decode: Json -> Option<T>)
    ensures var r := ReadResponse(c, lines, decode);
            forall i :: 0 <= i < Pushed(c, r.client) ==>
              DecodeLine(lines[i], decode) == Some(IsEvent(r.client.buffer[|c.buffer| + i]))
    decreases |lines|
  {
    if |lines| > 0 {
      var d := DecodeLine(lines[0], decode);
      if d.Some? && d.value.IsEvent? {
        var e := d.value.event;
        var c' := c.(buffer := c.buffer + [e]);
        ReadResponseEvent(c, lines, decode);
        ReadResponseEvents(c', lines[1..], decode);
        var b := ReadResponse(c', lines[1..], decode).client.buffer;
        assert b[..|c'.buffer|] == c'.buffer;
        assert b[|c.buffer|] == c'.buffer[|c.buffer|] == e;
        forall i | 1 <= i < |b| - |c.buffer|
          ensures DecodeLine(lines[i], decode) == Some(IsEvent(b[|c.buffer| + i]))
        {
          assert lines[i] == lines[1..][i - 1];
          assert b[|c.buffer| + i] == b[|c'.buffer| + (i - 1)];
        }
      }
    }
  }

  /** A leading event line is buffered and the reading goes on with the rest. */
  lemma ReadResponseEvent<T>(c: Client, lines: seq<Json>, decode: Json -> Option<T>)
    requires |lines| > 0 && DecodeLine(lines[0], decode).Some? && DecodeLine(lines[0], decode).value.IsEvent?
    ensures ReadResponse(c, lines, decode) ==
            ReadResponse(c.(buffer := c.buffer + [DecodeLine(lines[0], decode).value.event]), lines[1..], decode)
  {
  }

  /**
   * How `read_response()` stopped: a response is the line right after the
   * buffered events, and so is a malformed line.
   */
  lemma {:induction false} ReadResponseStops<T>(c: Client, lines: seq<Json>, decode: Json -> Option<T>)
    ensures var r := ReadResponse(c, lines, decode);
            r.result.Ok? ==>
              Pushed(c, r.client) < |lines| &&
              DecodeLine(lines[Pushed(c, r.client)], decode) == Some(IsResponse(r.result.value)) &&
              r.rest == lines[Pushed(c, r.client) + 1..]
    ensures var r := ReadResponse(c, lines, decode);
            r.result.Err? && r.result.error.Malformed? ==>
              Pushed(c, r.client) < |lines| && DecodeLine(lines[Pushed(c, r.client)], decode).None?
    decreases |lines|
  {
    if |lines| > 0 {
      var d := DecodeLine(lines[0], decode);
      if d.Some? && d.value.IsEvent? {
        var c' := c.(buffer := c.buffer + [d.value.event]);
        ReadResponseStops(c', lines[1..], decode);
        var r := ReadResponse(c', lines[1..], decode);
        assert ReadResponse(c, lines, decode) == r;
        var n := Pushed(c', r.client);
        assert Pushed(c, r.client) == n + 1;
        if n < |lines| - 1 {
          assert lines[1..][n] == lines[n + 1];
          assert lines[1..][n + 1..] == lines[n + 2..];
        }
      }
    }
  }

  /**
   * `read_events()`: non-blocking reads of events until would-block. Each
   * event is appended in order; a line that is not an event is an error,
   * with the events before it kept.
   */
  function ReadEvents(c: Client, lines: seq<Json>): (r: Read<()>)
    ensures r.client == c.(buffer := r.client.buffer)
    ensures 0 <= Pushed(c, r.client) <= |lines| && r.client.buffer[..|c.buffer|] == c.buffer
    ensures forall i :: 0 <= i < Pushed(c, r.client) ==>
              DecodeEvent(lines[i]) == Some(r.client.buffer[|c.buffer| + i])
    ensures r.result.Ok? <==> Pushed(c, r.client) == |lines|
    ensures r.result.Ok? ==> r.rest == []
    ensures r.result.Err? ==> DecodeEvent(lines[Pushed(c, r.client)]).None? && r.result.error.Malformed?
    decreases |lines|
  {
    if |lines| == 0 then Read(c, [], Ok(()))
    else match DecodeEvent(lines[0])
      case None => Read(c, lines[1..], Err(Malformed(lines[0])))
      case Some(e) =>
        var c' := c.(buffer := c.buffer + [e]);
        var r := ReadEvents(c', lines[1..]);
        assert r.client.buffer[..|c.buffer|] == r.client.buffer[..|c'.buffer|][..|c.buffer|];
        r
  }

  /** `handle_event()`: a property change overwrites the cached value; any other event is ignored. */
  function HandleEvent(cache: map<string, Json>, e: Event): (r: map<string, Json>)
    ensures e.PropertyChange? ==> r == cache[e.name := e.data]
    ensures !e.PropertyChange? ==> r == cache
  {
    match e
    case PropertyChange(name, data) => cache[name := data]
    case _ => cache
  }

  /** Applies events first to last, as the `for` loop of `update` does. */
  function Apply(cache: map<string, Json>, events: seq<Event>): map<string, Json>
    decreases |events|
  {
    if |events| == 0 then cache else Apply(HandleEvent(cache, events[0]), events[1..])
  }

  /** The data of the last change of `name` in `events`, if any; the reference for the cache. */
  function LastWrite(events: seq<Event>, name: string): (r: Option<Json>)
    ensures r.Some? <==> exists i :: 0 <= i < |events| && events[i].PropertyChange? && events[i].name == name
    decreases |events|
  {
    if |events| == 0 then None
    else
      var e := events[|events| - 1];
      if e.PropertyChange? && e.name == name then Some(e.data)
      else
        var r := LastWrite(events[..|events| - 1], name);
        assert forall i :: 0 <= i < |events| - 1 ==> events[..|events| - 1][i] == events[i];
        r
  }

  lemma {:induction false} ApplySnoc(cache: map<string, Json>, events: seq<Event>, e: Event)
    ensures Apply(cache, events + [e]) == HandleEvent(Apply(cache, events), e)
    decreases |events|
  {
    if |events| == 0 {
      assert events + [e] == [e];
    } else {
      assert (events + [e])[1..] == events[1..] + [e];
      ApplySnoc(HandleEvent(cache, events[0]), events[1..], e);
    }
  }

  /** Applying a batch of events leaves each property at its last written value, or as it was. */
  lemma {:induction false} ApplyLastWriteWins(cache: map<string, Json>, events: seq<Event>, name: string)
    ensures var m := Apply(cache, events);
            match LastWrite(events, name)
            case Some(d) => name in m && m[name] == d
            case None => (name in m <==> name in cache) && (name in cache ==> m[name] == cache[name])
    decreases |events|
  {
    if |events| > 0 {
      var init := events[..|events| - 1];
      var e := events[|events| - 1];
      assert init + [e] == events;
      ApplySnoc(cache, init, e);
      ApplyLastWriteWins(cache, init, name);
    }
  }

  /**
   * `update()`: drains the pending events, then applies the whole buffer
   * first to last and empties it. A read error returns before anything is
   * applied, keeping the events read so far in the buffer.
   */
  function Update(c: Client, lines: seq<Json>): (r: Read<()>)
    ensures r.result.Ok? ==> r.client.buffer == [] && r.rest == []
    ensures r.result.Ok? ==> r.client.cache == Apply(c.cache, ReadEvents(c, lines).client.buffer)
    ensures r.result.Err? ==> r == ReadEvents(c, lines)
    ensures r.client.nextObserveId == c.nextObserveId && r.client.written == c.written
  {
    var rd := ReadEvents(c, lines);
    if rd.result.Err? then rd
    else Read(rd.client.(cache := Apply(rd.client.cache, rd.client.buffer), buffer := []), [], Ok(()))
  }

  /**
   * After a successful update, each property holds the data of its last
   * change among the buffered events followed by the drained ones, and is
   * otherwise as before.
   */
  lemma UpdateLastWriteWins(c: Client, lines: seq<Json>, name: string)
    requires Update(c, lines).result.Ok?
    ensures var evs := ReadEvents(c, lines).client.buffer;
            var m := Update(c, lines).client.cache;
            evs[..|c.buffer|] == c.buffer &&
            match LastWrite(evs, name)
            case Some(d) => name in m && m[name] == d
            case None => (name in m <==> name in c.cache) && (name in c.cache ==> m[name] == c.cache[name])
  {
    ApplyLastWriteWins(c.cache, ReadEvents(c, lines).client.buffer, name);
  }

  /**
   * `command()`: writes the command, reads its response, and succeeds iff
   * the response's `error` is `success`, giving its data.
   */
  function SendCommand<T>(c: Client, cmd: Command, lines: seq<Json>, decode: Json -> Option<T>): (r: Read<Option<T>>)
    ensures var rr := ReadResponse(c.(written := c.written + [cmd]), lines, decode);
            r.client == rr.client && r.rest == rr.rest &&
            (r.result.Ok? <==> rr.result.Ok? && rr.result.value.error == "success") &&
            (r.result.Ok? ==> r.result.value == rr.result.value.data) &&
            (rr.result.Ok? && rr.result.value.error != "success" ==> r.result == Err(CommandFailed(rr.result.value.error)))
    ensures r.client.written == c.written + [cmd]
  {
    var rr := ReadResponse(c.(written := c.written + [cmd]), lines, decode);
    match rr.result
    case Err(e) => Read(rr.client, rr.rest, Err(e))
    case Ok(resp) =>
      if resp.error == "success" then Read(rr.client, rr.rest, Ok(resp.data))
      else Read(rr.client, rr.rest, Err(CommandFailed(resp.error)))
  }

  /** `observe_property()`: observes under the current id; the counter moves on even if the command fails. */
  function Observe(c: Client, property: string, lines: seq<Json>): (r: Read<()>)
    ensures r.client.nextObserveId == c.nextObserveId + 1
    ensures r.client.written == c.written + [ObserveProperty(c.nextObserveId, property)]
    ensures r.client.cache == c.cache
    ensures r.result.Ok? <==> SendCommand(c.(nextObserveId := c.nextObserveId + 1),
                                          ObserveProperty(c.nextObserveId, property), lines, UnitData).result.Ok?
  {
    var cmd := ObserveProperty(c.nextObserveId, property);
    var rr := SendCommand(c.(nextObserveId := c.nextObserveId + 1), cmd, lines, UnitData);
    match rr.result
    case Err(e) => Read(rr.client, rr.rest, Err(e))
    case Ok(_) => Read(rr.client, rr.rest, Ok(()))
  }

  /** `get_property_cached()`: the cached value, if there is one and it decodes. */
  function GetPropertyCached<T>(c: Client, name: string, decode: Json -> Option<T>): (r: Option<T>)
    ensures r.Some? ==> name in c.cache && decode(c.cache[name]) == r
    ensures name in c.cache ==> r == decode(c.cache[name])
    ensures name !in c.cache ==> r.None?
  {
    if name in c.cache then decode(c.cache[name]) else None
  }

  /** The data of the first buffered change of `name`. */
  function FirstChange(events: seq<Event>, name: string): (r: Option<Json>)
    ensures r.None? <==> forall i :: 0 <= i < |events| ==> !(events[i].PropertyChange? && events[i].name == name)
    ensures r.Some? ==> exists i :: 0 <= i < |events| && events[i] == PropertyChange(name, r.value) &&
                          forall k :: 0 <= k < i ==> !(events[k].PropertyChange? && events[k].name == name)
    decreases |events|
  {
    if |events| == 0 then None
    else if events[0].PropertyChange? && events[0].name == name then
      assert events[0] == PropertyChange(name, events[0].data);
      Some(events[0].data)
    else
      var r := FirstChange(events[1..], name);
      assert forall i :: 0 <= i < |events| - 1 ==> events[1..][i] == events[i + 1];
      if r.Some? then
        var j :| 0 <= j < |events| - 1 && events[1..][j] == PropertyChange(name, r.value) &&
                 forall k :: 0 <= k < j ==> !(events[1..][k].PropertyChange? && events[1..][k].name == name);
        assert events[j + 1] == PropertyChange(name, r.value);
        r
      else r
  }

  /** How `get_property` ends: with a value, a panic from one of its `expect`s, or waiting forever. */
  datatype Outcome<T> = Value(value: T) | Panic | Hang

  datatype Got<T> = Got(client: Client, outcome: Outcome<T>)

  /**
   * `get_property()`: a decodable cached value is returned as is. Otherwise
   * the property is observed, pending events are drained, and the first
   * buffered change of it is decoded. The buffer is neither drained nor
   * applied, and the cache is not written. With no matching change among
   * all the lines given, the wait loop never ends.
   */
  function GetProperty<T>(c: Client, name: string, decode: Json -> Option<T>, lines: seq<Json>): (r: Got<T>)
    ensures GetPropertyCached(c, name, decode).Some? ==>
              r == Got(c, Value(GetPropertyCached(c, name, decode).value))
    ensures GetPropertyCached(c, name, decode).None? ==>
              r.client.nextObserveId == c.nextObserveId + 1 &&
              r.client.written == c.written + [ObserveProperty(c.nextObserveId, name)]
    ensures r.client.cache == c.cache
    ensures |c.buffer| <= |r.client.buffer| && r.client.buffer[..|c.buffer|] == c.buffer
    ensures r.outcome.Value? && GetPropertyCached(c, name, decode).None? ==>
              FirstChange(r.client.buffer, name).Some? &&
              decode(FirstChange(r.client.buffer, name).value) == Some(r.outcome.value)
    ensures r.outcome.Hang? ==> FirstChange(r.client.buffer, name).None?
  {
    match GetPropertyCached(c, name, decode)
    case Some(v) => Got(c, Value(v))
    case None =>
      var ob := Observe(c, name, lines);
      if ob.result.Err? then Got(ob.client, Panic)
      else
        var rd := ReadEvents(ob.client, ob.rest);
        assert rd.client.buffer[..|c.buffer|] == rd.client.buffer[..|ob.client.buffer|][..|c.buffer|];
        if rd.result.Err? then Got(rd.client, Panic)
        else match FirstChange(rd.client.buffer, name)
          case None => Got(rd.client, Hang)
          case Some(d) =>
            match decode(d)
            case None => Got(rd.client, Panic)
            case Some(v) => Got(rd.client, Value(v))
  }

  /** The first read of a property on a fresh client misses the cache and observes it under id 0. */
  lemma FirstGetObserves<T>(name: string, decode: Json -> Option<T>, lines: seq<Json>)
    ensures var r := GetProperty(Initial(), name, decode, lines);
            r.client.written == [ObserveProperty(0, name)] && r.client.nextObserveId == 1 && r.client.cache == map[]
  {
  }

  /** A change that was already buffered before the call wins over any newer one. */
  lemma GetPropertyPrefersBuffered<T>(c: Client, name: string, decode: Json -> Option<T>, lines: seq<Json>, i: nat)
    requires GetPropertyCached(c, name, decode).None?
    requires i < |c.buffer| && c.buffer[i].PropertyChange? && c.buffer[i].name == name
    requires forall k :: 0 <= k < i ==> !(c.buffer[k].PropertyChange? && c.buffer[k].name == name)
    requires GetProperty(c, name, decode, lines).outcome.Value?
    ensures decode(c.buffer[i].data) == Some(GetProperty(c, name, decode, lines).outcome.value)
  {
    var r := GetProperty(c, name, decode, lines);
    FirstChangeOfPrefix(r.client.buffer, c.buffer, name, i);
  }

  /** The first change in a buffer is the first one in any prefix of it that has one. */
  lemma FirstChangeOfPrefix(b: seq<Event>, p: seq<Event>, name: string, i: nat)
    requires |p| <= |b| && b[..|p|] == p
    requires i < |p| && p[i].PropertyChange? && p[i].name == name
    requires forall k :: 0 <= k < i ==> !(p[k].PropertyChange? && p[k].name == name)
    ensures FirstChange(b, name) == Some(p[i].data)
  {
    assert forall k :: 0 <= k < |p| ==> b[k] == b[..|p|][k];
    var j :| 0 <= j < |b| && b[j] == PropertyChange(name, FirstChange(b, name).value) &&
             forall k :: 0 <= k < j ==> !(b[k].PropertyChange? && b[k].name == name);
    assert j == i;
  }
}
