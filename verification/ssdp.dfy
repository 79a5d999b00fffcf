/**
 * SSDP discovery (src/dlna/search.rs): the M-SEARCH request the overlay
 * multicasts, and the reading of the Location header out of a search
 * response (section 1.3.3 of the UPnP Device Architecture 1.1).
 *
 * The URI parser of the `http` crate is a parameter: it is not part of
 * this model.
 */
module Ssdp {
  import opened Wrappers
  import opened Strings
  import opened Utf8

  /** `http::Uri`, reduced to the parts the overlay reads. */
  datatype Uri = Uri(scheme: Option<string>, authority: Option<string>, pathAndQuery: string)

  const LF: byte := 10
  const CR: byte := 13
  const Space: byte := 32
  const Colon: byte := 58

  /** Text as bytes, one byte per character: its low eight bits, which for ASCII text is its code. */
  function Ascii(s: string): (bs: seq<byte>)
    ensures |bs| == |s|
    ensures forall i :: 0 <= i < |s| && s[i] as int < 0x80 ==> bs[i] as int == s[i] as int
  {
    seq(|s|, i requires 0 <= i < |s| => (s[i] as int % 256) as byte)
  }

  /** Each line followed by CR LF. */
  function CrLfLines(lines: seq<string>): (text: string)
    decreases |lines|
  {
    if |lines| == 0 then [] else lines[0] + "\r\n" + CrLfLines(lines[1..])
  }

  /** The lines of the M-SEARCH request; the last, empty one ends the header block. */
  const MSearchLines: seq<string> := [
    "M-SEARCH * HTTP/1.1",
    "Host: 239.255.255.250:1900",
    "Man: \"ssdp:discover\"",
    "Mx: 2",
    "St: urn:schemas-upnp-org:device:MediaRenderer:1",
    ""]

  /** `M_SEARCH`. */
  const MSearch: seq<byte> := Ascii(CrLfLines(MSearchLines))

  /** A line feed at `i` is preceded by a carriage return. */
  predicate CrBeforeLf(t: string, i: nat)
    requires i < |t|
  {
    t[i] == '\n' ==> 0 < i && t[i - 1] == '\r'
  }

  /** Joining lines free of line feeds with CR LF puts a CR before every LF. */
  lemma {:induction false} CrLfLinesNoBareLf(lines: seq<string>)
    requires forall i :: 0 <= i < |lines| ==> '\n' !in lines[i]
    ensures forall i :: 0 <= i < |CrLfLines(lines)| ==> CrBeforeLf(CrLfLines(lines), i)
    decreases |lines|
  {
    if |lines| > 0 {
      var rest := CrLfLines(lines[1..]);
      var t := CrLfLines(lines);
      var k := |lines[0]|;
      assert t == lines[0] + "\r\n" + rest;
      CrLfLinesNoBareLf(lines[1..]);
      forall i | 0 <= i < |t|
        ensures CrBeforeLf(t, i)
      {
        if i >= k + 2 {
          var j := i - k - 2;
          assert CrBeforeLf(rest, j);
          assert t[i] == rest[j];
          if j > 0 {
            assert t[i - 1] == rest[j - 1];
          }
        } else if i < k {
          assert t[i] == lines[0][i];
        }
      }
    }
  }

  /** With a final empty line the text ends in a blank line: CR LF CR LF. */
  lemma {:induction false} CrLfLinesEndsBlank(lines: seq<string>)
    requires |lines| >= 2 && lines[|lines| - 1] == ""
    ensures var t := CrLfLines(lines); |t| >= 4 && t[|t| - 4..] == "\r\n\r\n"
    decreases |lines|
  {
    var rest := CrLfLines(lines[1..]);
    var t := CrLfLines(lines);
    assert t == lines[0] + "\r\n" + rest;
    if |lines| == 2 {
      assert lines[1..] == [""];
      assert CrLfLines(lines[1..][1..]) == [];
      assert rest == "\r\n";
    } else {
      CrLfLinesEndsBlank(lines[1..]);
      assert t[|t| - 4..] == rest[|rest| - 4..];
    }
  }

  /** Text ending in a blank line keeps that ending as bytes. */
  lemma AsciiEndsBlank(t: string)
    requires |t| >= 4 && t[|t| - 4..] == "\r\n\r\n"
    ensures |Ascii(t)| >= 4 && Ascii(t)[|t| - 4..] == [CR, LF, CR, LF]
  {
    var n := |t|;
    assert t[n - 4] == '\r' && t[n - 3] == '\n' && t[n - 2] == '\r' && t[n - 1] == '\n';
  }

  /** The request ends with an empty line, and its search target is the media renderer device type. */
  lemma MSearchShape()
    ensures |MSearch| >= 4 && MSearch[|MSearch| - 4..] == [CR, LF, CR, LF]
    ensures MSearchLines[4] == "St: urn:schemas-upnp-org:device:MediaRenderer:1"
  {
    CrLfLinesEndsBlank(MSearchLines);
    AsciiEndsBlank(CrLfLines(MSearchLines));
  }

  /** `u8::is_ascii_whitespace`: space, tab, LF, FF and CR. */
  predicate IsAsciiWhitespace(b: byte) {
    b == 32 || b == 9 || b == 10 || b == 12 || b == 13
  }

  /** `<[u8]>::trim_ascii`. */
  function TrimAscii(bs: seq<byte>): seq<byte> {
    TrimBy(bs, IsAsciiWhitespace)
  }

  /** A carriage return at the end of a line is trimmed away with the rest of the trailing whitespace. */
  lemma TrimAsciiCr(line: seq<byte>)
    ensures TrimAscii(line + [CR]) == TrimAscii(line)
  {
    var s := line + [CR];
    var t := TrimStartBy(s, IsAsciiWhitespace);
    var t' := TrimStartBy(line, IsAsciiWhitespace);
    if |t'| == 0 {
      assert forall i :: 0 <= i < |line| ==> IsAsciiWhitespace(line[i]);
      TrimAllWhitespace(s);
    } else {
      TrimStartAppend(line, [CR]);
      assert t == t' + [CR];
      assert t[..|t| - 1] == t';
    }
  }

  lemma {:induction false} TrimAllWhitespace(s: seq<byte>)
    requires forall i :: 0 <= i < |s| ==> IsAsciiWhitespace(s[i])
    ensures TrimStartBy(s, IsAsciiWhitespace) == []
    decreases |s|
  {
    if |s| > 0 {
      TrimAllWhitespace(s[1..]);
    }
  }

  /** Leading trimming stops inside the first part when that part is not all whitespace. */
  lemma {:induction false} TrimStartAppend(a: seq<byte>, b: seq<byte>)
    requires |TrimStartBy(a, IsAsciiWhitespace)| > 0
    ensures TrimStartBy(a + b, IsAsciiWhitespace) == TrimStartBy(a, IsAsciiWhitespace) + b
    decreases |a|
  {
    if |a| > 0 && IsAsciiWhitespace(a[0]) {
      assert (a + b)[1..] == a[1..] + b;
      TrimStartAppend(a[1..], b);
    }
  }

  function Lower(b: byte): byte {
    if 65 <= b <= 90 then b + 32 else b
  }

  /** `eq_ignore_ascii_case`. */
  predicate EqIgnoreAsciiCase(a: seq<byte>, b: seq<byte>) {
    |a| == |b| && forall i :: 0 <= i < |a| ==> Lower(a[i]) == Lower(b[i])
  }

  const LocationName: seq<byte> := Ascii("Location")

  /** The header line splits at its first colon into name and value. */
  function Header(line: seq<byte>): Option<(seq<byte>, seq<byte>)> {
    SplitOnce(line, [Colon])
  }

  /** A header line whose name is Location, in any case. */
  predicate IsLocation(line: seq<byte>) {
    Header(line).Some? && EqIgnoreAsciiCase(Header(line).value.0, LocationName)
  }

  /** What a Location line yields: its value as UTF-8 text, trimmed and parsed; nothing if either step fails. */
  function LocationValue(line: seq<byte>, parseUri: string -> Option<Uri>): Option<Uri>
    requires Header(line).Some?
  {
    match Decode(Header(line).value.1)
    case None => None
    case Some(text) => parseUri(Trim(text))
  }

  /** The header loop: `map_while` over colon-split lines, stopping at the first Location header. */
  function ScanHeaders(lines: seq<seq<byte>>, parseUri: string -> Option<Uri>): Option<Uri>
    decreases |lines|
  {
    if |lines| == 0 then None
    else match Header(lines[0])
      case None => None
      case Some((name, value)) =>
        if EqIgnoreAsciiCase(name, LocationName) then LocationValue(lines[0], parseUri)
        else ScanHeaders(lines[1..], parseUri)
  }

  /**
   * The reference: the first Location header counts, provided every line
   * before it is a header; after a line without a colon nothing counts.
   */
  predicate DecidesAt(lines: seq<seq<byte>>, i: nat) {
    i < |lines| && IsLocation(lines[i]) &&
    forall j :: 0 <= j < i ==> Header(lines[j]).Some? && !IsLocation(lines[j])
  }

  lemma {:induction false} ScanHeadersFinds(lines: seq<seq<byte>>, parseUri: string -> Option<Uri>, i: nat)
    requires DecidesAt(lines, i)
    ensures ScanHeaders(lines, parseUri) == LocationValue(lines[i], parseUri)
    decreases i
  {
    if i > 0 {
      assert DecidesAt(lines[1..], i - 1) by {
        forall j | 0 <= j < i - 1
          ensures Header(lines[1..][j]).Some? && !IsLocation(lines[1..][j])
        {
          assert lines[1..][j] == lines[j + 1];
        }
      }
      ScanHeadersFinds(lines[1..], parseUri, i - 1);
    }
  }

  lemma {:induction false} ScanHeadersOnlyAt(lines: seq<seq<byte>>, parseUri: string -> Option<Uri>)
    requires ScanHeaders(lines, parseUri).Some?
    ensures exists i :: DecidesAt(lines, i)
    decreases |lines|
  {
    if !IsLocation(lines[0]) {
      ScanHeadersOnlyAt(lines[1..], parseUri);
      var i: nat :| DecidesAt(lines[1..], i);
      assert DecidesAt(lines, i + 1) by {
        forall j | 1 <= j < i + 1
          ensures Header(lines[j]).Some? && !IsLocation(lines[j])
        {
          assert lines[j] == lines[1..][j - 1];
        }
      }
    } else {
      assert DecidesAt(lines, 0);
    }
  }

  /** Each line with the ASCII whitespace at both ends removed. */
  function TrimLines(lines: seq<seq<byte>>): (r: seq<seq<byte>>)
    ensures |r| == |lines| && forall i :: 0 <= i < |lines| ==> r[i] == TrimAscii(lines[i])
  {
    seq(|lines|, i requires 0 <= i < |lines| => TrimAscii(lines[i]))
  }

  /**
   * `Notify::from_response`: split on LF, trim each line, demand a space in
   * the status line, then scan the headers.
   */
  function FromResponse(response: seq<byte>, parseUri: string -> Option<Uri>): (r: Option<Uri>)
    ensures Space !in TrimAscii(SplitOn(response, LF)[0]) ==> r.None?
    ensures r.Some? ==> exists i :: DecidesAt(TrimLines(SplitOn(response, LF))[1..], i)
  {
    var lines := TrimLines(SplitOn(response, LF));
    if Space !in lines[0] then None
    else
      var r := ScanHeaders(lines[1..], parseUri);
      assert r.Some? ==> exists i :: DecidesAt(lines[1..], i) by {
        if r.Some? {
          ScanHeadersOnlyAt(lines[1..], parseUri);
        }
      }
      r
  }

  /**
   * The response is accepted exactly as the reference says: a status line
   * with a space, then the first Location header among the leading header
   * lines, read as trimmed UTF-8 and parsed.
   */
  lemma FromResponseDecides(response: seq<byte>, parseUri: string -> Option<Uri>, i: nat)
    requires var lines := TrimLines(SplitOn(response, LF));
             Space in lines[0] && DecidesAt(lines[1..], i)
    ensures FromResponse(response, parseUri) == LocationValue(TrimLines(SplitOn(response, LF))[1..][i], parseUri)
  {
    ScanHeadersFinds(TrimLines(SplitOn(response, LF))[1..], parseUri, i);
  }
}
