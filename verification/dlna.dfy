/**
 * DLNA renderers (src/dlna/mod.rs): the device list that SSDP discovery
 * fills, and the two RenderingControl actions the overlay uses,
 * SetVolume and GetVolume (section 2.4 of the UPnP RenderingControl:1
 * service template).
 *
 * Sockets and HTTP are out of reach: the datagrams waiting on the socket
 * are a sequence, and the device description fetch and the GetVolume
 * reply are functions the caller supplies. A panic (`expect`, `unwrap`,
 * `assert_eq!`) is `None` or `Panicked`.
 */
module Dlna {
  import opened Wrappers
  import opened Strings
  import opened Utf8
  import opened Toasts
  import Ssdp

  /** A discovered renderer: its friendly name, its description location and its last known volume. */
  datatype Device = Device(name: string, location: Ssdp.Uri, volume: byte)

  /** The control endpoint of the RenderingControl service. */
  const ControlPath: string := "/upnp/control/RenderingControl1"

  /**
   * The control URL: the location's scheme and authority with the fixed
   * control path. Without a scheme or an authority the `unwrap` panics.
   */
  function ControlUrl(location: Ssdp.Uri): (r: Option<Ssdp.Uri>)
    ensures r.Some? <==> location.scheme.Some? && location.authority.Some?
    ensures r.Some? ==> r.value.scheme == location.scheme && r.value.authority == location.authority
    ensures r.Some? ==> r.value.pathAndQuery == ControlPath
  {
    if location.scheme.Some? && location.authority.Some? then
      Some(Ssdp.Uri(location.scheme, location.authority, ControlPath))
    else None
  }

  /** The placeholder the SetVolume template carries where the volume goes. */
  const Placeholder: string := "%%VOL%%"

  /** The SetVolume envelope up to the placeholder. */
  const SetVolumeBefore: string :=
    "<?xml version=\"1.0\" encoding=\"utf-8\"?>\n" +
    "<s:Envelope xmlns:s=\"http://schemas.xmlsoap.org/soap/envelope/\" s:encodingStyle=\"http://schemas.xmlsoap.org/soap/encoding/\">\n" +
    "  <s:Body>\n" +
    "    <u:SetVolume xmlns:u=\"urn:schemas-upnp-org:service:RenderingControl:1\">\n" +
    "      <InstanceID>0</InstanceID>\n" +
    "      <Channel>Master</Channel>\n" +
    "      <DesiredVolume>"

  /** The SetVolume envelope after the placeholder. */
  const SetVolumeAfter: string :=
    "</DesiredVolume>\n" +
    "    </u:SetVolume>\n" +
    "  </s:Body>\n" +
    "</s:Envelope>"

  const SetVolumeTemplate: string := SetVolumeBefore + Placeholder + SetVolumeAfter

  /**
   * `split_once` at the placeholder, then the text before it, the value and
   * the text after it; `None` when the template has no placeholder.
   */
  function Splice(template: string, value: string): (r: Option<string>)
    ensures r.Some? <==> exists k :: OccursAt(template, Placeholder, k)
    ensures r.Some? ==> exists before, after ::
              template == before + Placeholder + after && r.value == before + value + after &&
              forall k: nat :: k < |before| ==> !OccursAt(template, Placeholder, k)
  {
    match SplitOnce(template, Placeholder)
    case None => None
    case Some((before, after)) => Some(before + value + after)
  }

  /** Only the first placeholder is replaced, and all the text around it is kept. */
  lemma SpliceFirst(before: string, after: string, value: string)
    requires '%' !in before
    ensures Splice(before + Placeholder + after, value) == Some(before + value + after)
  {
    SplitOnceBefore(before, Placeholder, after);
  }

  /** The template always has a placeholder, so the `unwrap` never panics. */
  lemma TemplateHasPlaceholder()
    ensures OccursAt(SetVolumeTemplate, Placeholder, |SetVolumeBefore|)
  {
    var n := |SetVolumeBefore|;
    assert SetVolumeTemplate[n..n + |Placeholder|] == Placeholder;
  }

  /** `u8::clamp(0, 100)`. */
  function ClampVolume(v: byte): (r: byte)
    ensures r <= 100
    ensures v <= 100 ==> r == v
    ensures v > 100 ==> r == 100
  {
    if v > 100 then 100 else v
  }

  /** The clamp is the nearest volume in [0, 100]: it lies between v and any allowed volume, and clamping twice is clamping once. */
  lemma ClampVolumeNearest(v: byte, w: byte)
    requires w <= 100
    ensures v <= ClampVolume(v) <= w || w <= ClampVolume(v) <= v
    ensures ClampVolume(ClampVolume(v)) == ClampVolume(v)
  {
  }

  /** The HTTP request an action sends. */
  datatype Post = Post(url: Ssdp.Uri, action: string, body: string)

  const SetVolumeAction: string := "\"urn:schemas-upnp-org:service:RenderingControl:1#SetVolume\""
  const GetVolumeAction: string := "\"urn:schemas-upnp-org:service:RenderingControl:1#GetVolume\""

  /**
   * `DlnaDevice::set_volume`: the request, clamped to 100, is spliced into
   * the envelope and posted to the control URL; the clamped volume is
   * stored whatever the HTTP request later answers. `None` is a panic.
   */
  function SetVolume(d: Device, requested: byte): (r: Option<(Device, Post)>)
    ensures r.Some? <==> ControlUrl(d.location).Some?
    ensures r.Some? ==> r.value.0 == d.(volume := ClampVolume(requested))
    ensures r.Some? ==> r.value.1.url == ControlUrl(d.location).value && r.value.1.action == SetVolumeAction
    ensures r.Some? ==> exists before, after ::
              SetVolumeTemplate == before + Placeholder + after &&
              r.value.1.body == before + NatToString(ClampVolume(requested) as nat) + after
  {
    var volume := ClampVolume(requested);
    TemplateHasPlaceholder();
    var body := Splice(SetVolumeTemplate, NatToString(volume as nat)).value;
    match ControlUrl(d.location)
    case None => None
    case Some(url) => Some((d.(volume := volume), Post(url, SetVolumeAction, body)))
  }

  const OpenTag: string := "<CurrentVolume>"
  const CloseTag: string := "</CurrentVolume>"

  /**
   * The text between the first `<CurrentVolume>` and the next
   * `</CurrentVolume>`; `None` when either tag is missing.
   */
  function Tagged(s: string): (r: Option<string>)
    ensures r.Some? ==> exists pre, post :: s == pre + OpenTag + r.value + CloseTag + post
  {
    match SplitOnce(s, OpenTag)
    case None => None
    case Some((pre, rest)) =>
      match SplitOnce(rest, CloseTag)
      case None => None
      case Some((text, post)) =>
        Regroup(pre, OpenTag, text, CloseTag, post);
        Some(text)
  }

  /** Concatenation regrouped: the text after a separator, itself split at a second one. */
  lemma Regroup(pre: string, open: string, text: string, close: string, post: string)
    ensures pre + open + (text + close + post) == pre + open + text + close + post
  {
  }

  /**
   * What `get_volume` reads from a reply: the tagged text as a `u8`.
   * `None` (a panic) when the reply is not UTF-8, either tag is missing or
   * the text is not a number that fits.
   */
  function ReadVolume(reply: seq<byte>): (r: Option<byte>)
    ensures r.Some? ==> (Decode(reply).Some? && Tagged(Decode(reply).value).Some? &&
                         ParseU8(Tagged(Decode(reply).value).value) == Some(r.value as nat))
  {
    match Decode(reply)
    case None => None
    case Some(s) =>
      match Tagged(s)
      case None => None
      case Some(text) =>
        match ParseU8(text)
        case None => None
        case Some(v) => Some(v as byte)
  }

  /** Text free of tags, between the two tags, is what is read. */
  lemma TaggedText(pre: string, text: string, post: string)
    requires '<' !in pre && '<' !in text
    ensures Tagged(pre + OpenTag + text + CloseTag + post) == Some(text)
  {
    var s := pre + OpenTag + text + CloseTag + post;
    assert s == pre + OpenTag + (text + CloseTag + post);
    SplitOnceBefore(pre, OpenTag, text + CloseTag + post);
    SplitOnceBefore(text, CloseTag, post);
  }

  /** A reply carrying a volume in decimal, with no tag before it, reads back as that volume. */
  lemma ReadVolumeOfReply(pre: string, v: byte, post: string)
    requires '<' !in pre
    ensures ReadVolume(Encode(pre + OpenTag + NatToString(v as nat) + CloseTag + post)) == Some(v)
  {
    var digits := NatToString(v as nat);
    DecodeEncode(pre + OpenTag + digits + CloseTag + post);
    assert '<' !in digits by {
      forall i | 0 <= i < |digits| ensures digits[i] != '<' {
        assert IsDigit(digits[i]);
      }
    }
    TaggedText(pre, digits, post);
    ParseU8OfNatToString(v as nat);
  }

  /** A reply without the opening tag is rejected. */
  lemma ReadVolumeNeedsTag(s: string)
    requires forall k :: !OccursAt(s, OpenTag, k)
    ensures ReadVolume(Encode(s)).None?
  {
    DecodeEncode(s);
  }

  /** `get_volume`: posts the GetVolume action and stores what the reply says. */
  function GetVolume(d: Device, reply: Ssdp.Uri -> Option<seq<byte>>): (r: Option<Device>)
    ensures r.Some? ==> r.value == d.(volume := r.value.volume)
    ensures r.Some? <==> ControlUrl(d.location).Some? && reply(ControlUrl(d.location).value).Some? &&
                          ReadVolume(reply(ControlUrl(d.location).value).value).Some?
  {
    match ControlUrl(d.location)
    case None => None
    case Some(url) =>
      match reply(url)
      case None => None
      case Some(bytes) =>
        match ReadVolume(bytes)
        case None => None
        case Some(v) => Some(d.(volume := v))
  }

  /** What one datagram read from the socket may be. */
  datatype Datagram = Packet(bytes: seq<byte>) | WouldBlock | SocketError

  /** The receive buffer: a longer datagram is cut to this size. */
  const BufferSize: nat := 2048

  function Received(bytes: seq<byte>): (msg: seq<byte>)
    ensures |msg| <= |bytes| && |msg| <= BufferSize && msg == bytes[..|msg|]
    ensures |bytes| <= BufferSize ==> msg == bytes
  {
    if |bytes| <= BufferSize then bytes else bytes[..BufferSize]
  }

  /** The location a datagram announces, if it parses as a search response. */
  function Announced(d: Datagram, parseUri: string -> Option<Ssdp.Uri>): Option<Ssdp.Uri> {
    if d.Packet? then Ssdp.FromResponse(Received(d.bytes), parseUri) else None
  }

  /** The result of one `Dlna::update`. */
  datatype Outcome =
    | Discovered(devices: seq<Device>, rest: seq<Datagram>, toast: Toast)
    | Idle(rest: seq<Datagram>)
    | Panicked

  /**
   * A new device at a location: its description names it, then its volume
   * is asked for. `describe` is the description fetch and parse; `None`
   * from it, or from the volume query, is a panic.
   */
  function Discover(location: Ssdp.Uri, describe: Ssdp.Uri -> Option<string>,
                    reply: Ssdp.Uri -> Option<seq<byte>>): (r: Option<Device>)
    ensures r.Some? ==> r.value.location == location && describe(location) == Some(r.value.name)
  {
    match describe(location)
    case None => None
    case Some(name) => GetVolume(Device(name, location, 0), reply)
  }

  /**
   * `Dlna::update`: read datagrams until one announces a device or the
   * socket has nothing more (an empty queue would block); unparseable
   * datagrams are skipped, a socket error ends the read.
   */
  function Update(devices: seq<Device>, queue: seq<Datagram>, parseUri: string -> Option<Ssdp.Uri>,
                  describe: Ssdp.Uri -> Option<string>, reply: Ssdp.Uri -> Option<seq<byte>>): (r: Outcome)
    ensures r.Discovered? ==> |r.devices| == |devices| + 1 && r.devices[..|devices|] == devices &&
                              r.toast == DlnaDeviceDiscovered(r.devices[|devices|].name)
    ensures r.Discovered? || r.Idle? ==> |r.rest| < |queue| || (queue == [] && r.rest == [])
    decreases |queue|
  {
    if |queue| == 0 then Idle([])
    else match queue[0]
      case WouldBlock => Idle(queue[1..])
      case SocketError => Idle(queue[1..])
      case Packet(_) =>
        match Announced(queue[0], parseUri)
        case None => Update(devices, queue[1..], parseUri, describe, reply)
        case Some(location) =>
          match Discover(location, describe, reply)
          case None => Panicked
          case Some(d) => Discovered(devices + [d], queue[1..], DlnaDeviceDiscovered(d.name))
  }

  /** A packet that does not parse as an announcement: `update` passes over it. */
  predicate Ignored(d: Datagram, parseUri: string -> Option<Ssdp.Uri>) {
    d.Packet? && Announced(d, parseUri).None?
  }

  /** The datagrams before `i` are all packets that do not parse. */
  predicate SkippedBefore(queue: seq<Datagram>, i: nat, parseUri: string -> Option<Ssdp.Uri>) {
    i <= |queue| && forall j :: 0 <= j < i ==> Ignored(queue[j], parseUri)
  }

  /** How many datagrams at the front are packets that do not parse: the reference for what `update` passes over. */
  function Skipped(queue: seq<Datagram>, parseUri: string -> Option<Ssdp.Uri>): (i: nat)
    ensures SkippedBefore(queue, i, parseUri)
    ensures i < |queue| ==> !Ignored(queue[i], parseUri)
    decreases |queue|
  {
    if |queue| > 0 && Ignored(queue[0], parseUri) then
      var i := Skipped(queue[1..], parseUri);
      SkippedBeforeCons(queue, i, parseUri);
      assert i < |queue[1..]| ==> queue[1..][i] == queue[i + 1];
      i + 1
    else 0
  }

  /** One more skipped datagram in front extends the skipped prefix by one. */
  lemma SkippedBeforeCons(queue: seq<Datagram>, i: nat, parseUri: string -> Option<Ssdp.Uri>)
    requires 0 < |queue| && Ignored(queue[0], parseUri)
    requires SkippedBefore(queue[1..], i, parseUri)
    ensures SkippedBefore(queue, i + 1, parseUri)
  {
    forall j | 0 <= j < i + 1 ensures Ignored(queue[j], parseUri) {
      if j > 0 {
        assert queue[j] == queue[1..][j - 1];
      }
    }
  }

  /** `update` passes over the unparseable packets at the front as if they were never received. */
  lemma {:induction false} UpdateSkipsLeading(devices: seq<Device>, queue: seq<Datagram>, parseUri: string -> Option<Ssdp.Uri>,
                                              describe: Ssdp.Uri -> Option<string>, reply: Ssdp.Uri -> Option<seq<byte>>)
    ensures Update(devices, queue, parseUri, describe, reply) ==
            Update(devices, queue[Skipped(queue, parseUri)..], parseUri, describe, reply)
    decreases |queue|
  {
    if |queue| > 0 && Ignored(queue[0], parseUri) {
      UpdateSkipsLeading(devices, queue[1..], parseUri, describe, reply);
      assert queue[1..][Skipped(queue[1..], parseUri)..] == queue[Skipped(queue, parseUri)..];
    }
  }

  /**
   * A discovery comes from the first datagram that is not an unparseable
   * packet: it parses, the device is at the location it announces, and the
   * queue resumes just after it.
   */
  lemma UpdateDiscovers(devices: seq<Device>, queue: seq<Datagram>, parseUri: string -> Option<Ssdp.Uri>,
                        describe: Ssdp.Uri -> Option<string>, reply: Ssdp.Uri -> Option<seq<byte>>)
    requires Update(devices, queue, parseUri, describe, reply).Discovered?
    ensures Skipped(queue, parseUri) < |queue|
    ensures Announced(queue[Skipped(queue, parseUri)], parseUri).Some?
    ensures Update(devices, queue, parseUri, describe, reply).rest == queue[Skipped(queue, parseUri) + 1..]
    ensures Update(devices, queue, parseUri, describe, reply).devices[|devices|].location ==
            Announced(queue[Skipped(queue, parseUri)], parseUri).value
  {
    UpdateSkipsLeading(devices, queue, parseUri, describe, reply);
    var i := Skipped(queue, parseUri);
    assert queue[i..][1..] == queue[i + 1..];
  }

  /** Datagrams that do not parse are passed over without a trace. */
  lemma UpdateSkips(devices: seq<Device>, queue: seq<Datagram>, parseUri: string -> Option<Ssdp.Uri>,
                    describe: Ssdp.Uri -> Option<string>, reply: Ssdp.Uri -> Option<seq<byte>>)
    requires |queue| > 0 && Ignored(queue[0], parseUri)
    ensures Update(devices, queue, parseUri, describe, reply) == Update(devices, queue[1..], parseUri, describe, reply)
  {
  }

  /** Nothing on the socket, or an error reading it, leaves the device list alone. */
  lemma UpdateIdle(devices: seq<Device>, queue: seq<Datagram>, parseUri: string -> Option<Ssdp.Uri>,
                   describe: Ssdp.Uri -> Option<string>, reply: Ssdp.Uri -> Option<seq<byte>>)
    requires queue == [] || !queue[0].Packet?
    ensures Update(devices, queue, parseUri, describe, reply).Idle?
  {
  }
}
