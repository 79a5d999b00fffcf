/**
 * The player's wire vocabulary (src/mpv/command.rs): outbound commands as
 * JSON values, and the inbound decoder that tells an event line from a
 * command response.
 */
module MpvCommand {
  import opened Wrappers
  import opened Json

  // ---------------------------------------------------------------------
  // Outbound commands
  // ---------------------------------------------------------------------

  /** `Command { command }`, serialised as the object `{"command": command}`. */
  datatype Command = Command(command: Json)

  function ToJson(c: Command): Json {
    Obj(map["command" := c.command])
  }

  /**
   * What a command asks of the player. `Decode` is the reading of the wire
   * form the player applies; it is the reference the encoders are checked
   * against.
   */
  datatype Request =
    | Observe(id: int, property: string)
    | Set(name: string, value: Json)
    | Cycle(name: string)
    | Add(name: string, delta: real)
    | SeekBy(seconds: real, exact: bool)

  /** Reads `{"command": [verb, args...]}` back into a request. */
  function Decode(j: Json): Option<Request> {
    match Member(j, "command")
    case Some(Arr(args)) =>
      if |args| == 3 && args[0] == Str("observe_property") && args[1].Num? && args[2].Str?
         && args[1].n == args[1].n.Floor as real then
        Some(Observe(args[1].n.Floor, args[2].s))
      else if |args| == 3 && args[0] == Str("set_property") && args[1].Str? then
        Some(Set(args[1].s, args[2]))
      else if |args| == 2 && args[0] == Str("cycle") && args[1].Str? then
        Some(Cycle(args[1].s))
      else if |args| == 3 && args[0] == Str("add") && args[1].Str? && args[2].Num? then
        Some(Add(args[1].s, args[2].n))
      else if |args| == 3 && args[0] == Str("seek") && args[1].Num?
              && args[2] in {Str("exact"), Str("keyframes")} then
        Some(SeekBy(args[1].n, args[2] == Str("exact")))
      else None
    case _ => None
  }

  /** `observe_property(id, property)`: `["observe_property", id, property]`. */
  function ObserveProperty(id: int, property: string): (c: Command)
    ensures Decode(ToJson(c)) == Some(Observe(id, property))
  {
    Command(Arr([Str("observe_property"), Num(id as real), Str(property)]))
  }

  /** `set_property(name, value)`: `["set_property", name, value]`. */
  function SetProperty(name: string, value: Json): (c: Command)
    ensures Decode(ToJson(c)) == Some(Set(name, value))
  {
    Command(Arr([Str("set_property"), Str(name), value]))
  }

  /** `cycle_property(name)`: `["cycle", name]`. */
  function CycleProperty(name: string): (c: Command)
    ensures Decode(ToJson(c)) == Some(Cycle(name))
  {
    Command(Arr([Str("cycle"), Str(name)]))
  }

  /** `add_property(name, value)`: `["add", name, value]`. */
  function AddProperty(name: string, value: real): (c: Command)
    ensures Decode(ToJson(c)) == Some(Add(name, value))
  {
    Command(Arr([Str("add"), Str(name), Num(value)]))
  }

  /** `seek(seconds, exact)`: `["seek", seconds, "exact" | "keyframes"]`. */
  function Seek(seconds: real, exact: bool): (c: Command)
    ensures Decode(ToJson(c)) == Some(SeekBy(seconds, exact))
    ensures c.command.Arr? && |c.command.items| == 3
    ensures c.command.items[2] == Str("exact") <==> exact
    ensures c.command.items[2] == Str("keyframes") <==> !exact
  {
    Command(Arr([Str("seek"), Num(seconds), Str(if exact then "exact" else "keyframes")]))
  }

  /** The encoder for each request. */
  function Encode(r: Request): Command {
    match r
    case Observe(id, p) => ObserveProperty(id, p)
    case Set(n, v) => SetProperty(n, v)
    case Cycle(n) => CycleProperty(n)
    case Add(n, x) => AddProperty(n, x)
    case SeekBy(s, e) => Seek(s, e)
  }

  /** Every request survives encoding and decoding, so distinct requests never share a wire form. */
  lemma {:induction false} DecodeEncode(r: Request)
    ensures Decode(ToJson(Encode(r))) == Some(r)
  {
    match r
    case Observe(id, p) =>
    case Set(n, v) =>
    case Cycle(n) =>
    case Add(n, x) =>
    case SeekBy(s, e) =>
  }

  lemma EncodeInjective(r1: Request, r2: Request)
    requires Encode(r1) == Encode(r2)
    ensures r1 == r2
  {
    DecodeEncode(r1);
    DecodeEncode(r2);
  }

  // ---------------------------------------------------------------------
  // Inbound lines
  // ---------------------------------------------------------------------

  /** `Response<T> { error, data }`. */
  datatype Response<T> = Response(error: string, data: Option<T>)

  /** The events the client distinguishes; any other `event` tag is `Unknown`. */
  datatype Event =
    | PropertyChange(name: string, data: Json)
    | SeekEvent
    | Unknown

  datatype EventOrResponse<T> = IsEvent(event: Event) | IsResponse(response: Response<T>)

  /**
   * The internally tagged `Event` decoder: an object whose `event` member
   * is a string. `property-change` needs a string `name`; a missing `data`
   * defaults to null. Other members are ignored.
   */
  function DecodeEvent(j: Json): (r: Option<Event>)
    ensures r.Some? ==> StrMember(j, "event").Some?
    ensures StrMember(j, "event") == Some("property-change") ==>
              r == (match StrMember(j, "name")
                    case Some(n) => Some(PropertyChange(n, Member(j, "data").GetOr(Null)))
                    case None => None)
    ensures StrMember(j, "event") == Some("seek") ==> r == Some(SeekEvent)
    ensures StrMember(j, "event").Some? && StrMember(j, "event").value !in {"property-change", "seek"} ==>
              r == Some(Unknown)
  {
    match StrMember(j, "event")
    case None => None
    case Some(tag) =>
      if tag == "property-change" then
        match StrMember(j, "name")
        case None => None
        case Some(name) => Some(PropertyChange(name, Member(j, "data").GetOr(Null)))
      else if tag == "seek" then Some(SeekEvent)
      else Some(Unknown)
  }

  /**
   * `Response<T>`: an object with a string `error`; `data` absent or null
   * reads as no data, and any other `data` must decode as a `T`.
   */
  function DecodeResponse<T>(j: Json, decodeData: Json -> Option<T>): (r: Option<Response<T>>)
    ensures r.Some? ==> StrMember(j, "error") == Some(r.value.error)
    ensures r.Some? && r.value.data.Some? ==>
              Member(j, "data").Some? && decodeData(Member(j, "data").value) == r.value.data
    ensures StrMember(j, "error").Some? && Member(j, "data").GetOr(Null) == Null ==>
              r == Some(Response(StrMember(j, "error").value, None))
  {
    match StrMember(j, "error")
    case None => None
    case Some(error) =>
      match Member(j, "data")
      case None => Some(Response(error, None))
      case Some(Null) => Some(Response(error, None))
      case Some(v) =>
        match decodeData(v)
        case None => None
        case Some(t) => Some(Response(error, Some(t)))
  }

  /** The untagged `EventOrResponse<T>`: the event reading is tried first. */
  function DecodeLine<T>(j: Json, decodeData: Json -> Option<T>): (r: Option<EventOrResponse<T>>)
    ensures DecodeEvent(j).Some? ==> r == Some(IsEvent(DecodeEvent(j).value))
    ensures Member(j, "event").None? ==>
              (r.Some? <==> DecodeResponse(j, decodeData).Some?) &&
              (r.Some? ==> r == Some(IsResponse(DecodeResponse(j, decodeData).value)))
    ensures StrMember(j, "event").Some? && StrMember(j, "event").value != "property-change" ==>
              r.Some? && r.value.IsEvent?
  {
    match DecodeEvent(j)
    case Some(e) => Some(IsEvent(e))
    case None =>
      match DecodeResponse(j, decodeData)
      case Some(resp) => Some(IsResponse(resp))
      case None => None
  }

  /** `()` as a response payload: only `null` deserialises to it. */
  function UnitData(j: Json): Option<()> {
    if j == Null then Some(()) else None
  }
}
