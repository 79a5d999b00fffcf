/**
 * SponsorBlock skip segments (src/mpv/sponsorblock.rs): the categories and
 * their wire names, the category list the overlay asks for, the decoding
 * of a segment from the service's JSON reply, and segment containment.
 *
 * The HTTP request and the URL query encoding are not part of this model;
 * the reply is a JSON value.
 */
module SponsorBlock {
  import opened Wrappers
  import opened Json
  import Time

  /** `Category`. */
  datatype Category = Sponsor | Selfpromo | Interaction | Intro | Outro | Preview | Hook | Filler

  /** `rename_all = "lowercase"`: the variant name in lower case. */
  function Name(c: Category): (s: string)
    ensures |s| > 0 && forall i :: 0 <= i < |s| ==> 'a' <= s[i] <= 'z'
  {
    match c
    case Sponsor => "sponsor"
    case Selfpromo => "selfpromo"
    case Interaction => "interaction"
    case Intro => "intro"
    case Outro => "outro"
    case Preview => "preview"
    case Hook => "hook"
    case Filler => "filler"
  }

  function Serialise(c: Category): Json {
    Str(Name(c))
  }

  /** The category a JSON string names; anything else is a decoding error. */
  function Deserialise(j: Json): Option<Category> {
    match j
    case Str(s) =>
      if s == "sponsor" then Some(Sponsor)
      else if s == "selfpromo" then Some(Selfpromo)
      else if s == "interaction" then Some(Interaction)
      else if s == "intro" then Some(Intro)
      else if s == "outro" then Some(Outro)
      else if s == "preview" then Some(Preview)
      else if s == "hook" then Some(Hook)
      else if s == "filler" then Some(Filler)
      else None
    case _ => None
  }

  /** A JSON value decodes to a category exactly when it is that category's encoding. */
  lemma CategoryRoundTrip(j: Json, c: Category)
    ensures Deserialise(j) == Some(c) <==> j == Serialise(c)
  {
  }

  /** No two categories share a wire name. */
  lemma NamesDistinct(c: Category, d: Category)
    requires c != d
    ensures Name(c) != Name(d)
  {
    CategoryRoundTrip(Serialise(c), c);
    CategoryRoundTrip(Serialise(d), d);
  }

  /** `Category::label`. */
  function Label(c: Category): string {
    match c
    case Sponsor => "Sponsor"
    case Selfpromo => "Self-Promo"
    case Interaction => "Interaction"
    case Intro => "Intro"
    case Outro => "Outro"
    case Preview => "Preview"
    case Hook => "Hook"
    case Filler => "Filler"
  }

  /** No two categories share a label. */
  lemma LabelsDistinct(c: Category, d: Category)
    requires c != d
    ensures Label(c) != Label(d)
  {
  }

  /** The categories `fetch_skip_segments` asks for, in order. */
  const Requested: seq<Category> := [Sponsor, Selfpromo, Intro, Outro]

  /** The `categories` query value, as a JSON array of the requested names. */
  function CategoriesParam(): (j: Json)
    ensures j == Arr([Str("sponsor"), Str("selfpromo"), Str("intro"), Str("outro")])
  {
    var items := seq(|Requested|, i requires 0 <= i < |Requested| => Serialise(Requested[i]));
    assert items == [Serialise(Sponsor), Serialise(Selfpromo), Serialise(Intro), Serialise(Outro)];
    Arr(items)
  }

  /** Every requested name decodes back to the requested category, and the interaction, preview, hook and filler categories are not asked for. */
  lemma RequestedDecode()
    ensures forall i :: 0 <= i < |Requested| ==> Deserialise(CategoriesParam().items[i]) == Some(Requested[i])
    ensures Interaction !in Requested && Preview !in Requested && Hook !in Requested && Filler !in Requested
  {
    forall i | 0 <= i < |Requested|
      ensures Deserialise(CategoriesParam().items[i]) == Some(Requested[i])
    {
      CategoryRoundTrip(Serialise(Requested[i]), Requested[i]);
    }
  }

  /** `SkipSegment`: the interval, the segment's id and its category. */
  datatype SkipSegment = SkipSegment(segment: (Time.Time, Time.Time), uuid: string, category: Category)

  function Start(s: SkipSegment): Time.Time {
    s.segment.0
  }

  function End(s: SkipSegment): Time.Time {
    s.segment.1
  }

  /** `contains`: the start belongs to the segment, the end does not. */
  predicate Contains(s: SkipSegment, t: Time.Time) {
    t.secs >= Start(s).secs && t.secs < End(s).secs
  }

  /** A segment holds its start and not its end exactly when it is non-empty; an empty or reversed one holds nothing. */
  lemma ContainsBounds(s: SkipSegment, t: Time.Time)
    ensures Contains(s, Start(s)) <==> Start(s).secs < End(s).secs
    ensures !Contains(s, End(s))
    ensures End(s).secs <= Start(s).secs ==> !Contains(s, t)
  {
  }

  /**
   * Two segments where the first ends at the second's start cover the span from the first's start to
   * the second's end, and no time lies in both.
   */
  lemma AdjacentSegments(s1: SkipSegment, s2: SkipSegment, t: Time.Time)
    requires End(s1) == Start(s2)
    requires Start(s1).secs <= End(s1).secs <= End(s2).secs
    ensures Contains(s1, t) || Contains(s2, t) <==> Start(s1).secs <= t.secs < End(s2).secs
    ensures !(Contains(s1, t) && Contains(s2, t))
  {
  }

  /**
   * The derived `Deserialize`: an object with a two-number `segment` array, a
   * string `UUID` and a known `category`; other members are ignored.
   */
  function DecodeSegment(j: Json): (r: Option<SkipSegment>)
    ensures r.Some? ==> j.Obj? && "segment" in j.fields && "UUID" in j.fields && "category" in j.fields
    ensures r.Some? ==> Deserialise(j.fields["category"]) == Some(r.value.category) &&
                        j.fields["UUID"] == Str(r.value.uuid) &&
                        j.fields["segment"] == Arr([Num(Start(r.value).secs), Num(End(r.value).secs)])
  {
    match (Member(j, "segment"), StrMember(j, "UUID"), Member(j, "category"))
    case (Some(Arr(pair)), Some(uuid), Some(cat)) =>
      if |pair| == 2 && pair[0].Num? && pair[1].Num? && Deserialise(cat).Some? then
        assert pair == [pair[0], pair[1]];
        Some(SkipSegment((Time.Time(pair[0].n), Time.Time(pair[1].n)), uuid, Deserialise(cat).value))
      else None
    case _ => None
  }

  function EncodeSegment(s: SkipSegment): Json {
    Obj(map["segment" := Arr([Num(Start(s).secs), Num(End(s).secs)]),
            "UUID" := Str(s.uuid),
            "category" := Serialise(s.category)])
  }

  /** Decoding a segment's encoding gives the segment back. */
  lemma SegmentRoundTrip(s: SkipSegment)
    ensures DecodeSegment(EncodeSegment(s)) == Some(s)
  {
    CategoryRoundTrip(Serialise(s.category), s.category);
  }

  /** The reply: an array of segments; one malformed segment fails the whole reply. */
  function DecodeSegments(j: Json): (r: Option<seq<SkipSegment>>)
    ensures r.Some? <==> j.Arr? && forall i :: 0 <= i < |j.items| ==> DecodeSegment(j.items[i]).Some?
    ensures r.Some? ==> |r.value| == |j.items| &&
                        forall i :: 0 <= i < |j.items| ==> DecodeSegment(j.items[i]) == Some(r.value[i])
  {
    if j.Arr? && forall i :: 0 <= i < |j.items| ==> DecodeSegment(j.items[i]).Some? then
      Some(seq(|j.items|, i requires 0 <= i < |j.items| && DecodeSegment(j.items[i]).Some? => DecodeSegment(j.items[i]).value))
    else None
  }
}
