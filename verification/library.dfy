/**
 * The home menu's media library (src/ui/views/home_menu/library.rs): the
 * extended-M3U playlist scanner (section 4.3.1.1 of RFC 8216 for the
 * `#EXTM3U` header), the classification of directory entries, their
 * labels, the order of a listing, and the entry and "Go up" rules.
 *
 * The file system and the ffprobe subprocess are parameters: whether a path
 * is a directory or a file, a file's bytes, and the probe's result.
 * Paths are absolute and already split into components.
 */
module Library {
  import opened Wrappers
  import opened Strings
  import opened Utf8

  /** An absolute path as its components; `[]` is the root. */
  type Path = seq<string>

  /** `/data/index`, the library's top directory. */
  const IndexDir: Path := ["data", "index"]

  /** `Path::parent`: the root has none. */
  function Parent(p: Path): (r: Option<Path>)
    ensures r.Some? <==> |p| > 0
    ensures r.Some? ==> r.value + [p[|p| - 1]] == p
  {
    if |p| == 0 then None else Some(p[..|p| - 1])
  }

  // ---------------------------------------------------------------------
  // Playlist files
  // ---------------------------------------------------------------------

  const LF: byte := 10

  /**
   * `BufRead::lines` under `map_while(Result::ok)`: `pieces` is the file
   * split at every line feed, the last piece being what follows the last
   * one. Each line is decoded with `decode` (UTF-8 validation for a file)
   * and a line that ended in a line feed also loses one carriage return;
   * the first line that does not decode ends the file, and an empty last
   * piece is not a line.
   */
  function DecodeLines(pieces: seq<seq<byte>>, decode: seq<byte> -> Option<string>): (lines: seq<string>)
    requires |pieces| >= 1
    ensures |lines| <= |pieces|
    decreases |pieces|
  {
    if |pieces| == 1 then
      if pieces[0] == [] then []
      else match decode(pieces[0])
        case None => []
        case Some(t) => [t]
    else match decode(pieces[0])
      case None => []
      case Some(t) => [StripCr(t)] + DecodeLines(pieces[1..], decode)
  }

  /** Each line read is its piece decoded, a terminated one without its carriage return. */
  lemma {:induction false} DecodeLinesRead(pieces: seq<seq<byte>>, decode: seq<byte> -> Option<string>)
    requires |pieces| >= 1
    ensures var lines := DecodeLines(pieces, decode);
            forall i :: 0 <= i < |lines| ==> LineOf(pieces, i, decode) == Some(lines[i])
    decreases |pieces|
  {
    if |pieces| > 1 && decode(pieces[0]).Some? {
      var rest := DecodeLines(pieces[1..], decode);
      DecodeLinesRead(pieces[1..], decode);
      LineOfTail(pieces, |rest|, decode);
    }
  }

  /** The reading stops only at a piece that does not decode or at an empty last piece. */
  lemma {:induction false} DecodeLinesStop(pieces: seq<seq<byte>>, decode: seq<byte> -> Option<string>)
    requires |pieces| >= 1
    ensures var lines := DecodeLines(pieces, decode);
            |lines| < |pieces| ==> decode(pieces[|lines|]).None? || (|lines| == |pieces| - 1 && pieces[|lines|] == [])
    decreases |pieces|
  {
    if |pieces| > 1 && decode(pieces[0]).Some? {
      var rest := DecodeLines(pieces[1..], decode);
      DecodeLinesStop(pieces[1..], decode);
      assert |rest| < |pieces| - 1 ==> pieces[1..][|rest|] == pieces[|rest| + 1];
    }
  }

  /** Line `i` of the pieces, decoded, with its carriage return dropped when a line feed followed it. */
  function LineOf(pieces: seq<seq<byte>>, i: nat, decode: seq<byte> -> Option<string>): Option<string>
    requires i < |pieces|
  {
    match decode(pieces[i])
    case None => None
    case Some(t) => Some(if i < |pieces| - 1 then StripCr(t) else t)
  }

  lemma LineOfTail(pieces: seq<seq<byte>>, n: nat, decode: seq<byte> -> Option<string>)
    requires 1 < |pieces| && n < |pieces|
    ensures forall i :: 1 <= i <= n ==> LineOf(pieces, i, decode) == LineOf(pieces[1..], i - 1, decode)
  {
    forall i | 1 <= i <= n
      ensures LineOf(pieces, i, decode) == LineOf(pieces[1..], i - 1, decode)
    {
      assert pieces[1..][i - 1] == pieces[i];
    }
  }

  /** The lines of a playlist file. */
  function ReadLines(bs: seq<byte>): seq<string> {
    DecodeLines(SplitOn(bs, LF), Decode)
  }

  /** A file that is entirely UTF-8 line by line loses no line: each piece but an empty last one is a line. */
  lemma {:induction false} DecodeLinesComplete(pieces: seq<seq<byte>>, decode: seq<byte> -> Option<string>)
    requires |pieces| >= 1
    requires forall i :: 0 <= i < |pieces| ==> decode(pieces[i]).Some?
    ensures |DecodeLines(pieces, decode)| == if pieces[|pieces| - 1] == [] then |pieces| - 1 else |pieces|
    decreases |pieces|
  {
    if |pieces| > 1 {
      assert forall i :: 1 <= i < |pieces| ==> pieces[1..][i - 1] == pieces[i];
      DecodeLinesComplete(pieces[1..], decode);
    }
  }

  datatype Playlist = Playlist(indexPath: Path, title: Option<string>, numEntries: nat)

  const ExtM3u: string := "#EXTM3U"
  const PlaylistTag: string := "#PLAYLIST:"

  /** A `#PLAYLIST:` line. */
  predicate HasTitle(line: string) {
    StripPrefix(line, PlaylistTag).Some?
  }

  /** The title a `#PLAYLIST:` line gives: the rest of the line, trimmed. */
  function TitleOf(line: string): string
    requires HasTitle(line)
  {
    Trim(StripPrefix(line, PlaylistTag).value)
  }

  /** A line that names a playlist entry: not empty and not starting with `#`; whitespace counts. */
  predicate IsEntry(line: string) {
    |line| > 0 && line[0] != '#'
  }

  /** One turn of the scanning loop. */
  function ScanLine(p: Playlist, line: string): (r: Playlist)
    ensures r.indexPath == p.indexPath
  {
    if line == ExtM3u then p
    else if |line| == 0 then p
    else if line[0] == '#' then
      match StripPrefix(line, PlaylistTag)
      case Some(t) => p.(title := Some(Trim(t)))
      case None => p
    else p.(numEntries := p.numEntries + 1)
  }

  /** The scanning loop over the lines so far. */
  function Scan(p: Playlist, lines: seq<string>): (r: Playlist)
    ensures r.indexPath == p.indexPath
    decreases |lines|
  {
    if |lines| == 0 then p else ScanLine(Scan(p, lines[..|lines| - 1]), lines[|lines| - 1])
  }

  /** A line counts exactly when it is an entry; a title line sets the title and nothing else does. */
  lemma ScanLineCases(p: Playlist, line: string)
    ensures ScanLine(p, line).numEntries == if IsEntry(line) then p.numEntries + 1 else p.numEntries
    ensures ScanLine(p, line).title == if HasTitle(line) then Some(TitleOf(line)) else p.title
  {
    if HasTitle(line) {
      assert line[..|PlaylistTag|][0] == '#';
    }
  }

  /** The indices of the entry lines. */
  function EntryLines(lines: seq<string>): set<nat> {
    set i: nat | i < |lines| && IsEntry(lines[i])
  }

  /** The loop counts the entry lines. */
  lemma {:induction false} ScanCounts(p: Playlist, lines: seq<string>)
    ensures Scan(p, lines).numEntries == p.numEntries + |EntryLines(lines)|
    decreases |lines|
  {
    if |lines| > 0 {
      var n := |lines| - 1;
      var front := lines[..n];
      ScanCounts(p, front);
      ScanLineCases(Scan(p, front), lines[n]);
      assert forall i :: 0 <= i < n ==> front[i] == lines[i];
      if IsEntry(lines[n]) {
        assert EntryLines(lines) == EntryLines(front) + {n};
      } else {
        assert EntryLines(lines) == EntryLines(front);
      }
    }
  }

  /** Without a `#PLAYLIST:` line the title is left as it was. */
  lemma {:induction false} ScanNoTitle(p: Playlist, lines: seq<string>)
    requires forall k :: 0 <= k < |lines| ==> !HasTitle(lines[k])
    ensures Scan(p, lines).title == p.title
    decreases |lines|
  {
    if |lines| > 0 {
      var n := |lines| - 1;
      var front := lines[..n];
      assert forall i :: 0 <= i < n ==> front[i] == lines[i];
      ScanNoTitle(p, front);
      ScanLineCases(Scan(p, front), lines[n]);
    }
  }

  /** The title comes from the last `#PLAYLIST:` line: a later one wins. */
  lemma {:induction false} ScanLastTitle(p: Playlist, lines: seq<string>, k: nat)
    requires k < |lines| && HasTitle(lines[k])
    requires forall j :: k < j < |lines| ==> !HasTitle(lines[j])
    ensures Scan(p, lines).title == Some(TitleOf(lines[k]))
    decreases |lines|
  {
    var n := |lines| - 1;
    var front := lines[..n];
    ScanLineCases(Scan(p, front), lines[n]);
    if k < n {
      assert forall i :: 0 <= i < n ==> front[i] == lines[i];
      ScanLastTitle(p, front, k);
    }
  }

  /** The `for line in reader.lines()` loop, run over the lines of a file. */
  method ScanFile(indexPath: Path, lines: seq<string>) returns (p: Playlist)
    ensures p == Scan(Playlist(indexPath, None, 0), lines)
    ensures p.indexPath == indexPath && p.numEntries == |EntryLines(lines)|
  {
    p := Playlist(indexPath, None, 0);
    var i := 0;
    while i < |lines|
      invariant 0 <= i <= |lines|
      invariant p == Scan(Playlist(indexPath, None, 0), lines[..i])
    {
      assert lines[..i + 1][..i] == lines[..i];
      p := ScanLine(p, lines[i]);
      i := i + 1;
    }
    assert lines[..i] == lines;
    ScanCounts(Playlist(indexPath, None, 0), lines);
  }

  // ---------------------------------------------------------------------
  // Directory entries
  // ---------------------------------------------------------------------

  /** What ffprobe reports of a media file. */
  datatype MediaInfo = MediaInfo(title: Option<string>, youtubeId: Option<string>)

  datatype EntryInfo = MediaFile(media: MediaInfo) | MediaFolder(playlist: Playlist) | OtherFile | RawFolder

  datatype DirEntry = DirEntry(path: Path, info: EntryInfo)

  /** The file system and the probe, as the entry rules see them. */
  datatype Fs = Fs(
    isDir: Path -> bool,
    isFile: Path -> bool,
    read: Path -> Option<seq<byte>>,
    probe: Path -> Option<MediaInfo>)

  /** The index a folder's playlist is read from: `index.m3u8` first, then `index.m3u`. */
  function IndexFile(fs: Fs, dir: Path): (r: Option<Path>)
    ensures r.Some? <==> fs.isFile(dir + ["index.m3u8"]) || fs.isFile(dir + ["index.m3u"])
    ensures fs.isFile(dir + ["index.m3u8"]) ==> r == Some(dir + ["index.m3u8"])
    ensures !fs.isFile(dir + ["index.m3u8"]) && fs.isFile(dir + ["index.m3u"]) ==> r == Some(dir + ["index.m3u"])
  {
    if fs.isFile(dir + ["index.m3u8"]) then Some(dir + ["index.m3u8"])
    else if fs.isFile(dir + ["index.m3u"]) then Some(dir + ["index.m3u"])
    else None
  }

  /** `Playlist::from_path`: a directory's index, or the path itself; None when there is no index or it cannot be read. */
  function PlaylistFromPath(fs: Fs, path: Path): (r: Option<Playlist>)
    ensures fs.isDir(path) && IndexFile(fs, path).None? ==> r.None?
    ensures r.Some? ==> r.value.indexPath == (if fs.isDir(path) then IndexFile(fs, path).value else path) &&
                        fs.read(r.value.indexPath).Some? &&
                        r.value == Scan(Playlist(r.value.indexPath, None, 0), ReadLines(fs.read(r.value.indexPath).value))
  {
    var index := if fs.isDir(path) then IndexFile(fs, path) else Some(path);
    if index.None? then None
    else match fs.read(index.value)
      case None => None
      case Some(bs) => Some(Scan(Playlist(index.value, None, 0), ReadLines(bs)))
  }

  /** `EntryInfo::from_path`. */
  function InfoFromPath(fs: Fs, path: Path): (info: EntryInfo)
    ensures info.MediaFolder? || info.RawFolder? <==> fs.isDir(path)
    ensures info.MediaFolder? <==> fs.isDir(path) && PlaylistFromPath(fs, path).Some?
    ensures info.MediaFile? <==> !fs.isDir(path) && fs.probe(path).Some?
    ensures info.MediaFolder? ==> info.playlist == PlaylistFromPath(fs, path).value
    ensures info.MediaFile? ==> info.media == fs.probe(path).value
  {
    if fs.isDir(path) then
      match PlaylistFromPath(fs, path)
      case Some(p) => MediaFolder(p)
      case None => RawFolder
    else match fs.probe(path)
      case Some(m) => MediaFile(m)
      case None => OtherFile
  }

  /** A folder holding both index files is read from `index.m3u8`; a folder with neither is a plain folder. */
  lemma FolderIndex(fs: Fs, dir: Path)
    requires fs.isDir(dir)
    ensures fs.isFile(dir + ["index.m3u8"]) && InfoFromPath(fs, dir).MediaFolder? ==>
              InfoFromPath(fs, dir).playlist.indexPath == dir + ["index.m3u8"]
    ensures !fs.isFile(dir + ["index.m3u8"]) && !fs.isFile(dir + ["index.m3u"]) ==> InfoFromPath(fs, dir) == RawFolder
  {
  }

  /** `DirEntry::label`: the media or playlist title when there is one, else the file name. */
  function Label(e: DirEntry): (s: string)
    requires |e.path| > 0
    ensures e.info.MediaFile? && e.info.media.title.Some? ==> s == e.info.media.title.value
    ensures e.info.MediaFolder? && e.info.playlist.title.Some? ==> s == e.info.playlist.title.value
    ensures !(e.info.MediaFile? && e.info.media.title.Some?) && !(e.info.MediaFolder? && e.info.playlist.title.Some?) ==>
              s == e.path[|e.path| - 1]
  {
    var fileName := e.path[|e.path| - 1];
    match e.info
    case MediaFile(m) => if m.title.Some? then m.title.value else fileName
    case MediaFolder(p) => if p.title.Some? then p.title.value else fileName
    case _ => fileName
  }

  /** An entry's button is enabled unless it is some other file; the first entry is always enabled. */
  function Enabled(entries: seq<DirEntry>, idx: nat): (on: bool)
    requires idx < |entries|
    ensures on <==> idx == 0 || !entries[idx].info.OtherFile?
  {
    !entries[idx].info.OtherFile? || idx == 0
  }

  /** "Go up": offered below the top directory when there is a parent, leading to that parent. */
  function GoUp(cwd: Path): (r: Option<Path>)
    ensures r.Some? <==> cwd != IndexDir && |cwd| > 0
    ensures r.Some? ==> r.value + [cwd[|cwd| - 1]] == cwd
  {
    if cwd != IndexDir then Parent(cwd) else None
  }

  /** What activating an entry does: play a file (then unpause and hide the overlay), enter a folder, or nothing. */
  datatype Activation = Play(file: Path) | Enter(dir: Path) | Ignore

  function Activate(e: DirEntry): (a: Activation)
    ensures a.Play? <==> e.info.MediaFile? || e.info.MediaFolder?
    ensures e.info.MediaFile? ==> a == Play(e.path)
    ensures e.info.MediaFolder? ==> a == Play(e.info.playlist.indexPath)
    ensures a.Enter? <==> e.info.RawFolder?
    ensures a.Enter? ==> a.dir == e.path
  {
    match e.info
    case MediaFile(_) => Play(e.path)
    case MediaFolder(p) => Play(p.indexPath)
    case OtherFile => Ignore
    case RawFolder => Enter(e.path)
  }

  /** Entering a folder and going up again returns to where the listing was, below the top directory. */
  lemma EnterThenGoUp(cwd: Path, name: string)
    ensures GoUp(cwd + [name]) == if cwd + [name] == IndexDir then None else Some(cwd)
  {
    assert (cwd + [name])[..|cwd|] == cwd;
  }

  // ---------------------------------------------------------------------
  // Ordering of a listing
  // ---------------------------------------------------------------------

  /** `str` order: lexicographic by character (the order of their UTF-8 bytes). */
  predicate StrLeq(a: string, b: string)
    decreases |a|
  {
    |a| == 0 || (|b| > 0 && (a[0] < b[0] || (a[0] == b[0] && StrLeq(a[1..], b[1..]))))
  }

  lemma {:induction false} StrLeqTotal(a: string, b: string)
    ensures StrLeq(a, b) || StrLeq(b, a)
    decreases |a|
  {
    if |a| > 0 && |b| > 0 && a[0] == b[0] {
      StrLeqTotal(a[1..], b[1..]);
    }
  }

  lemma {:induction false} StrLeqRefl(a: string)
    ensures StrLeq(a, a)
    decreases |a|
  {
    if |a| > 0 {
      StrLeqRefl(a[1..]);
    }
  }

  lemma {:induction false} StrLeqAntisym(a: string, b: string)
    requires StrLeq(a, b) && StrLeq(b, a)
    ensures a == b
    decreases |a|
  {
    if |a| > 0 {
      StrLeqAntisym(a[1..], b[1..]);
      assert a == [a[0]] + a[1..] && b == [b[0]] + b[1..];
    }
  }

  lemma {:induction false} StrLeqTrans(a: string, b: string, c: string)
    requires StrLeq(a, b) && StrLeq(b, c)
    ensures StrLeq(a, c)
    decreases |a|
  {
    if |a| > 0 && a[0] == b[0] && b[0] == c[0] {
      StrLeqTrans(a[1..], b[1..], c[1..]);
    }
  }

  /** `Path` order: lexicographic by component, each compared as a string. */
  predicate PathLeq(a: Path, b: Path)
    decreases |a|
  {
    |a| == 0 || (|b| > 0 && ((StrLeq(a[0], b[0]) && a[0] != b[0]) || (a[0] == b[0] && PathLeq(a[1..], b[1..]))))
  }

  lemma {:induction false} PathLeqTotal(a: Path, b: Path)
    ensures PathLeq(a, b) || PathLeq(b, a)
    decreases |a|
  {
    if |a| > 0 && |b| > 0 {
      if a[0] == b[0] {
        PathLeqTotal(a[1..], b[1..]);
      } else {
        StrLeqTotal(a[0], b[0]);
      }
    }
  }

  lemma {:induction false} PathLeqTrans(a: Path, b: Path, c: Path)
    requires PathLeq(a, b) && PathLeq(b, c)
    ensures PathLeq(a, c)
    decreases |a|
  {
    if |a| > 0 {
      if a[0] == b[0] && b[0] == c[0] {
        PathLeqTrans(a[1..], b[1..], c[1..]);
      } else {
        StrLeqRefl(a[0]);
        StrLeqRefl(b[0]);
        StrLeqTrans(a[0], b[0], c[0]);
        if a[0] == c[0] {
          StrLeqAntisym(a[0], b[0]);
        }
      }
    }
  }

  /** Neighbours in order. */
  predicate Sorted(es: seq<DirEntry>) {
    forall i :: 0 <= i < |es| - 1 ==> PathLeq(es[i].path, es[i + 1].path)
  }

  lemma SortedTail(es: seq<DirEntry>)
    requires Sorted(es) && |es| > 0
    ensures Sorted(es[1..])
  {
    forall i | 0 <= i < |es| - 2
      ensures PathLeq(es[1..][i].path, es[1..][i + 1].path)
    {
      assert es[1..][i] == es[i + 1] && es[1..][i + 1] == es[i + 2];
    }
  }

  lemma SortedCons(e: DirEntry, es: seq<DirEntry>)
    requires Sorted(es) && (|es| == 0 || PathLeq(e.path, es[0].path))
    ensures Sorted([e] + es)
  {
    var r := [e] + es;
    forall i | 0 <= i < |r| - 1
      ensures PathLeq(r[i].path, r[i + 1].path)
    {
      if i > 0 {
        assert r[i] == es[i - 1] && r[i + 1] == es[i];
      }
    }
  }

  /** Any two entries in order. */
  predicate SortedPairwise(es: seq<DirEntry>) {
    forall i, j :: 0 <= i < j < |es| ==> PathLeq(es[i].path, es[j].path)
  }

  lemma {:induction false} SortedIsPairwise(es: seq<DirEntry>)
    requires Sorted(es)
    ensures SortedPairwise(es)
    decreases |es|
  {
    if |es| > 1 {
      var tail := es[1..];
      SortedTail(es);
      SortedIsPairwise(tail);
      forall j | 1 < j < |es|
        ensures PathLeq(es[0].path, es[j].path)
      {
        assert tail[j - 1] == es[j] && tail[0] == es[1];
        PathLeqTrans(es[0].path, es[1].path, es[j].path);
      }
      assert forall i, j :: 1 <= i < j < |es| ==> es[i] == tail[i - 1] && es[j] == tail[j - 1];
    }
  }

  /** One entry put into a sorted listing at its place. */
  function Insert(e: DirEntry, es: seq<DirEntry>): (r: seq<DirEntry>)
    requires Sorted(es)
    ensures Sorted(r) && multiset(r) == multiset(es) + multiset{e}
    ensures |r| > 0 && (r[0] == e || (|es| > 0 && r[0] == es[0]))
    decreases |es|
  {
    if |es| == 0 then [e]
    else if PathLeq(e.path, es[0].path) then
      SortedCons(e, es);
      [e] + es
    else
      SortedTail(es);
      var rest := Insert(e, es[1..]);
      PathLeqTotal(e.path, es[0].path);
      SortedCons(es[0], rest);
      assert es == [es[0]] + es[1..];
      [es[0]] + rest
  }

  /** `entries.sort_by(|a, b| a.path.cmp(&b.path))`. */
  method SortByPath(es: seq<DirEntry>) returns (r: seq<DirEntry>)
    ensures SortedPairwise(r)
    ensures multiset(r) == multiset(es)
  {
    r := [];
    var i := 0;
    while i < |es|
      invariant 0 <= i <= |es|
      invariant Sorted(r) && multiset(r) == multiset(es[..i])
    {
      assert es[..i + 1] == es[..i] + [es[i]];
      r := Insert(es[i], r);
      i := i + 1;
    }
    assert es[..i] == es;
    SortedIsPairwise(r);
  }

  /**
   * `DirFetcher::compute`: an unreadable directory lists nothing; unreadable
   * entries (`None`) are skipped; every other entry is classified and the
   * listing is sorted by path.
   */
  method Fetch(fs: Fs, listing: Option<seq<Option<Path>>>) returns (entries: seq<DirEntry>)
    ensures listing.None? ==> entries == []
    ensures SortedPairwise(entries)
    ensures forall e :: e in entries ==> e.info == InfoFromPath(fs, e.path)
    ensures listing.Some? ==> forall p :: Some(p) in listing.value <==> exists e :: e in entries && e.path == p
  {
    if listing.None? {
      return [];
    }
    var found := listing.value;
    var unsorted: seq<DirEntry> := [];
    var i := 0;
    while i < |found|
      invariant 0 <= i <= |found|
      invariant forall e :: e in unsorted ==> e.info == InfoFromPath(fs, e.path)
      invariant forall p :: Some(p) in found[..i] <==> exists e :: e in unsorted && e.path == p
    {
      assert found[..i + 1] == found[..i] + [found[i]];
      if found[i].Some? {
        var e := DirEntry(found[i].value, InfoFromPath(fs, found[i].value));
        assert e in unsorted + [e];
        unsorted := unsorted + [e];
      }
      i := i + 1;
    }
    assert found[..i] == found;
    entries := SortByPath(unsorted);
    assert forall e :: e in entries <==> e in unsorted by {
      forall e
        ensures e in entries <==> e in unsorted
      {
        assert e in entries <==> e in multiset(entries);
        assert e in unsorted <==> e in multiset(unsorted);
      }
    }
  }
}
