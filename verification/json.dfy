/**
 * JSON values (RFC 8259, section 3) as the player protocol exchanges them.
 * Text encoding and decoding are not modelled: a protocol line is one
 * value. Numbers are rationals, so a JSON number carries no integer/float
 * distinction and no NaN.
 */
module Json {
  import opened Wrappers

  datatype Json =
    | Null
    | Bool(b: bool)
    | Num(n: real)
    | Str(s: string)
    | Arr(items: seq<Json>)
    | Obj(fields: map<string, Json>)

  /** The value of member `key` of an object; None for a missing key or a non-object. */
  function Member(j: Json, key: string): (r: Option<Json>)
    ensures r.Some? <==> j.Obj? && key in j.fields
    ensures r.Some? ==> r.value == j.fields[key]
  {
    if j.Obj? && key in j.fields then Some(j.fields[key]) else None
  }

  /** The string held by member `key`; None when missing or not a string. */
  function StrMember(j: Json, key: string): (r: Option<string>)
    ensures r.Some? <==> j.Obj? && key in j.fields && j.fields[key].Str?
    ensures r.Some? ==> j.fields[key] == Str(r.value)
  {
    match Member(j, key)
    case Some(Str(s)) => Some(s)
    case _ => None
  }

  /** Reading back a member just stored gives it; the other members are untouched. */
  lemma MemberOfStored(fields: map<string, Json>, key: string, v: Json, other: string)
    ensures Member(Obj(fields[key := v]), key) == Some(v)
    ensures other != key ==> Member(Obj(fields[key := v]), other) == Member(Obj(fields), other)
    ensures StrMember(Obj(fields[key := v]), key).Some? <==> v.Str?
    ensures v.Str? ==> StrMember(Obj(fields[key := v]), key) == Some(v.s)
  {
  }
}
