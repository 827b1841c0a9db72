/**
 * The add-station form: normalising a typed stream address, exporting the
 * dial as an extended M3U playlist (the `#EXTM3U` header and `#EXTINF` tags
 * of sections 4.3.1.1 and 4.3.2.1 of RFC 8216) and importing such a
 * playlist back, line by line.
 */
module Playlist {
  import opened Optional
  import opened Text
  import opened Stations

  // ---------------------------------------------------------------------------
  // Stream address normalisation

  /** The address `handleSubmit` stores: trimmed, with `https://` added when no scheme is present. */
  function NormalizeUrl(raw: string): (r: string)
    ensures HasScheme(r)
    ensures HasScheme(Trim(raw)) ==> r == Trim(raw)
  {
    var t := Trim(raw);
    if HasScheme(t) then t else "https://" + t
  }

  /** Without a scheme, the trimmed address is kept whole behind `https://`. */
  lemma NormalizeUrlAddsScheme(raw: string)
    requires !HasScheme(Trim(raw))
    ensures NormalizeUrl(raw) == "https://" + Trim(raw)
  {
  }

  /** Prefixing a trimmed address with the scheme keeps it trimmed. */
  lemma TrimWithScheme(t: string)
    requires Trimmed(t)
    ensures Trim("https://" + t) == "https://" + t
  {
    var r := "https://" + t;
    assert r[0] == 'h';
    assert r[|r| - 1] == if t == [] then '/' else t[|t| - 1];
    TrimOfTrimmed(r);
  }

  /** A normalised address is trimmed: `trim` leaves it as it is. */
  lemma NormalizedIsTrimmed(raw: string)
    ensures Trim(NormalizeUrl(raw)) == NormalizeUrl(raw)
  {
    var t := Trim(raw);
    if HasScheme(t) {
      TrimIdempotent(raw);
    } else {
      NormalizeUrlAddsScheme(raw);
      TrimWithScheme(t);
    }
  }

  /** Normalising an address that was already normalised changes nothing. */
  lemma NormalizeUrlIdempotent(raw: string)
    ensures NormalizeUrl(NormalizeUrl(raw)) == NormalizeUrl(raw)
  {
    NormalizedIsTrimmed(raw);
  }

  /** `handleSubmit`: a station is passed on only when both fields are non-blank; the name is passed trimmed. */
  function Submit(name: string, url: string): (r: Option<Entry>)
    ensures r.Some? <==> Trim(name) != "" && Trim(url) != ""
    ensures r.Some? ==> r.value == Entry(Trim(name), NormalizeUrl(url))
  {
    if Trim(name) != "" && Trim(url) != "" then Some(Entry(Trim(name), NormalizeUrl(url))) else None
  }

  /** A submitted station has a non-empty, trimmed name and an address that carries a scheme and is trimmed. */
  lemma SubmittedIsClean(name: string, url: string)
    requires Submit(name, url).Some?
    ensures var e := Submit(name, url).value;
      e.name != "" && Trim(e.name) == e.name && HasScheme(e.url) && Trim(e.url) == e.url
  {
    TrimIdempotent(name);
    NormalizedIsTrimmed(url);
  }

  // ---------------------------------------------------------------------------
  // Export

  /** The first line of the playlist (section 4.3.1.1 of RFC 8216). */
  const Header: string := "#EXTM3U"

  /** The `#EXTINF` line naming a station, with duration -1 (section 4.3.2.1 of RFC 8216). */
  function Tag(name: string): (r: string)
    ensures |r| == 11 + |name| && r[..8] == "#EXTINF:" && r[8..11] == "-1," && r[11..] == name
  {
    "#EXTINF:-1," + name
  }

  /** The two lines one station contributes to the playlist. */
  function EntryText(s: Station): (r: string)
    ensures |r| == |Tag(s.name)| + |s.url| + 2
    ensures r[..|Tag(s.name)|] == Tag(s.name) && r[|Tag(s.name)|] == '\n'
    ensures r[|Tag(s.name)| + 1..|r| - 1] == s.url && r[|r| - 1] == '\n'
  {
    Tag(s.name) + "\n" + s.url + "\n"
  }

  function Body(stations: seq<Station>): (r: string)
    ensures r == [] <==> stations == []
    ensures r != [] ==> r[|r| - 1] == '\n'
  {
    if stations == [] then "" else EntryText(stations[0]) + Body(stations[1..])
  }

  /** The whole playlist: the header line, then each station in list order. */
  function M3u(stations: seq<Station>): (r: string)
    ensures |r| >= 8 && r[..8] == Header + "\n"
    ensures r[|r| - 1] == '\n'
  {
    Header + "\n" + Body(stations)
  }

  lemma {:induction false} BodySnoc(stations: seq<Station>, s: Station)
    ensures Body(stations + [s]) == Body(stations) + EntryText(s)
  {
    if stations == [] {
      assert Body([s]) == EntryText(s) + Body([]);
    } else {
      assert (stations + [s])[1..] == stations[1..] + [s];
      BodySnoc(stations[1..], s);
    }
  }

  /** The downloaded file: its name and its text. */
  datatype Backup = Backup(fileName: string, text: string)

  const NamePrefix: string := "backupWaveTuner-"
  const NameSuffix: string := ".m3u"

  /** `backupWaveTuner-dd-mm-yyyy-hh-mm-ss.m3u`. */
  function BackupName(c: Clock): (r: string)
    ensures |r| > |NamePrefix| + |NameSuffix|
    ensures r[..|NamePrefix|] == NamePrefix && r[|r| - |NameSuffix|..] == NameSuffix
  {
    NamePrefix + Stamp(c) + NameSuffix
  }

  /** Two backups taken at different seconds get different file names. */
  lemma BackupNameInjective(c: Clock, d: Clock)
    requires ValidClock(c) && ValidClock(d)
    requires BackupName(c) == BackupName(d)
    ensures c == d
  {
    Unglue(NamePrefix, Stamp(c), NameSuffix, NamePrefix, Stamp(d), NameSuffix);
    StampInjective(c, d);
  }

  /** `handleExport`: nothing for an empty dial, otherwise the playlist text built by appending, under the time-stamped name. */
  method ExportPlaylist(stations: seq<Station>, now: Clock) returns (file: Option<Backup>)
    ensures stations == [] ==> file == None
    ensures stations != [] ==> file == Some(Backup(BackupName(now), M3u(stations)))
  {
    if |stations| == 0 {
      return None;
    }
    var text := Header + "\n";
    var i := 0;
    assert stations[..i] == [];
    while i < |stations|
      invariant 0 <= i <= |stations|
      invariant text == M3u(stations[..i])
    {
      assert M3u(stations[..i + 1]) == text + EntryText(stations[i]) by {
        assert stations[..i + 1] == stations[..i] + [stations[i]];
        M3uSnoc(stations[..i], stations[i]);
      }
      text := text + EntryText(stations[i]);
      i := i + 1;
    }
    assert stations[..i] == stations;
    return Some(Backup(BackupName(now), text));
  }

  /** Appending one station's lines to a playlist is exporting one station more. */
  lemma M3uSnoc(stations: seq<Station>, s: Station)
    ensures M3u(stations + [s]) == M3u(stations) + EntryText(s)
  {
    BodySnoc(stations, s);
  }

  // ---------------------------------------------------------------------------
  // Import

  /** A carriage return that `\r?\n` consumes together with the line feed after it. */
  function DropCr(piece: string): (r: string)
    ensures |r| <= |piece| && r == piece[..|r|]
    ensures |r| < |piece| <==> piece != [] && piece[|piece| - 1] == '\r'
    ensures |r| < |piece| ==> |r| == |piece| - 1
  {
    if piece != [] && piece[|piece| - 1] == '\r' then piece[..|piece| - 1] else piece
  }

  /** `content.split(/\r?\n/)`. */
  function SplitLines(s: string): (r: seq<string>)
    ensures |r| >= 1
    decreases |s|
  {
    var i := IndexOf(s, '\n');
    if i == |s| then [s] else [DropCr(s[..i])] + SplitLines(s[i + 1..])
  }

  /** Splitting at the first line feed of a text. */
  lemma SplitLinesCons(first: string, rest: string)
    requires '\n' !in first
    ensures SplitLines(first + "\n" + rest) == [DropCr(first)] + SplitLines(rest)
  {
    var s := first + "\n" + rest;
    IndexOfAfter(first, '\n', rest);
    assert s[..|first|] == first && s[|first| + 1..] == rest;
  }

  /** Longest prefix matched by `(.*)`: everything before the first line terminator. */
  function RestOfLine(s: string): (r: string)
    ensures |r| <= |s| && r == s[..|r|]
    ensures NoLineTerminator(r)
    ensures |r| < |s| ==> IsLineTerminator(s[|r|])
  {
    if s == [] || IsLineTerminator(s[0]) then [] else [s[0]] + RestOfLine(s[1..])
  }

  /** The capture of `.*?,(.*)` anchored at the start of `s`, if it matches there. */
  function CommaGroup(s: string): (r: Option<string>)
    ensures r.Some? ==> NoLineTerminator(r.value)
  {
    if s == [] then None
    else if s[0] == ',' then Some(RestOfLine(s[1..]))
    else if IsLineTerminator(s[0]) then None
    else CommaGroup(s[1..])
  }

  /** `line.match(/#EXTINF:.*?,(.*)/)`: the group of the leftmost match, if any. */
  function MatchExtinf(line: string): (r: Option<string>)
    ensures r.Some? ==> NoLineTerminator(r.value)
    decreases |line|
  {
    if |line| < 8 then None
    else if line[..8] == "#EXTINF:" && CommaGroup(line[8..]).Some? then CommaGroup(line[8..])
    else MatchExtinf(line[1..])
  }

  /** What the reading loop carries from one line to the next. */
  datatype ParseState = ParseState(pending: string, imported: seq<Entry>)

  const Start := ParseState("", [])

  /** The name an address line receives when no `#EXTINF` name is pending. */
  function FallbackName(position: nat): string {
    "Radio " + NatToString(position)
  }

  /** `currentName || \`Radio ${imported.length + 1}\``. */
  function PendingOr(st: ParseState): string {
    if st.pending != "" then st.pending else FallbackName(|st.imported| + 1)
  }

  /** One turn of the reading loop. */
  function Step(st: ParseState, raw: string): (r: ParseState)
    ensures |st.imported| <= |r.imported| <= |st.imported| + 1
    ensures r.imported[..|st.imported|] == st.imported
  {
    var line := Trim(raw);
    if line == "" then st
    else if StartsWith(line, "#EXTINF:") then
      match MatchExtinf(line)
      case Some(group) => st.(pending := Trim(group))
      case None => st
    else if !StartsWith(line, "#") then
      ParseState("", st.imported + [Entry(PendingOr(st), line)])
    else st
  }

  function Run(lines: seq<string>, st: ParseState): (r: ParseState)
    ensures |st.imported| <= |r.imported| <= |st.imported| + |lines|
    ensures r.imported[..|st.imported|] == st.imported
  {
    if lines == [] then st else Run(lines[1..], Step(st, lines[0]))
  }

  /** The entries a playlist text yields. */
  function Parse(content: string): (r: seq<Entry>)
    ensures |r| <= |SplitLines(content)|
  {
    Run(SplitLines(content), Start).imported
  }

  /** An empty file yields nothing. */
  lemma ParseEmpty()
    ensures Parse("") == []
  {
    assert SplitLines("") == [""];
    assert Trim("") == "";
  }

  /** One turn of the reading loop of `handleFileUpload`, on the loop's two variables. */
  method ReadLine(raw: string, currentName0: string, imported0: seq<Entry>)
    returns (currentName: string, imported: seq<Entry>)
    ensures ParseState(currentName, imported) == Step(ParseState(currentName0, imported0), raw)
  {
    currentName, imported := currentName0, imported0;
    var line := Trim(raw);
    if line != "" {
      if StartsWith(line, "#EXTINF:") {
        var m := MatchExtinf(line);
        if m.Some? {
          currentName := Trim(m.value);
        }
      } else if !StartsWith(line, "#") {
        var name := if currentName != "" then currentName else FallbackName(|imported| + 1);
        imported := imported + [Entry(name, line)];
        currentName := "";
      }
    }
  }

  /** The reading loop of `handleFileUpload`; the callback receives the entries only when there is at least one. */
  method ReadPlaylist(content: string) returns (result: Option<seq<Entry>>)
    ensures result == if Parse(content) != [] then Some(Parse(content)) else None
  {
    if content == "" {
      ParseEmpty();
      return None;
    }
    var lines := SplitLines(content);
    assert lines[0..] == lines;
    var imported: seq<Entry> := [];
    var currentName := "";
    var i := 0;
    while i < |lines|
      invariant 0 <= i <= |lines|
      invariant Run(lines[i..], ParseState(currentName, imported)) == Run(lines, Start)
    {
      RunStep(lines, i, ParseState(currentName, imported));
      currentName, imported := ReadLine(lines[i], currentName, imported);
      i := i + 1;
    }
    assert lines[i..] == [];
    if |imported| > 0 {
      return Some(imported);
    }
    return None;
  }

  /** The reading loop consumes one line per turn. */
  lemma RunStep(lines: seq<string>, i: nat, st: ParseState)
    requires i < |lines|
    ensures Run(lines[i..], st) == Run(lines[i + 1..], Step(st, lines[i]))
  {
    assert lines[i..][1..] == lines[i + 1..];
  }

  // ---------------------------------------------------------------------------
  // What the reader yields

  predicate IsAddressLine(raw: string) {
    Trim(raw) != "" && !StartsWith(Trim(raw), "#")
  }

  /** The trimmed address lines, in file order. */
  function AddressLines(lines: seq<string>): (r: seq<string>)
  {
    if lines == [] then []
    else (if IsAddressLine(lines[0]) then [Trim(lines[0])] else []) + AddressLines(lines[1..])
  }

  function Urls(entries: seq<Entry>): (r: seq<string>)
    ensures |r| == |entries| && forall k :: 0 <= k < |r| ==> r[k] == entries[k].url
  {
    seq(|entries|, k requires 0 <= k < |entries| => entries[k].url)
  }

  /** An `#EXTINF:` line is also a line starting with `#`. */
  lemma ExtinfIsDirective(line: string)
    ensures StartsWith(line, "#EXTINF:") ==> StartsWith(line, "#")
  {
    if StartsWith(line, "#EXTINF:") {
      assert line[0] == line[..8][0] == '#';
    }
  }

  /** Only an address line adds an entry: its address is the trimmed line, its name the pending one or the fallback. */
  lemma StepImported(st: ParseState, raw: string)
    ensures IsAddressLine(raw) ==>
      Step(st, raw).imported == st.imported + [Entry(PendingOr(st), Trim(raw))]
    ensures !IsAddressLine(raw) ==> Step(st, raw).imported == st.imported
  {
    ExtinfIsDirective(Trim(raw));
  }

  lemma UrlsSnoc(entries: seq<Entry>, e: Entry)
    ensures Urls(entries + [e]) == Urls(entries) + [e.url]
  {
  }

  /** One entry per trimmed, non-empty line not starting with `#`, in file order, its address that line. */
  lemma {:induction false} RunYieldsAddressLines(lines: seq<string>, st: ParseState)
    ensures Urls(Run(lines, st).imported) == Urls(st.imported) + AddressLines(lines)
  {
    if lines != [] {
      var next := Step(st, lines[0]);
      RunYieldsAddressLines(lines[1..], next);
      StepImported(st, lines[0]);
      if IsAddressLine(lines[0]) {
        UrlsSnoc(st.imported, next.imported[|st.imported|]);
        assert Urls(next.imported) == Urls(st.imported) + [Trim(lines[0])];
      }
    }
  }

  /** A name the reader may give the entry at a 1-based position: a non-empty trimmed name, or the fallback. */
  predicate WellNamed(e: Entry, position: nat) {
    e.name == FallbackName(position) || (e.name != "" && Trimmed(e.name))
  }

  /** The state's pending name is trimmed, and every name given so far is well formed. */
  predicate NamesWellFormed(st: ParseState) {
    && Trimmed(st.pending)
    && forall k :: 0 <= k < |st.imported| ==> WellNamed(st.imported[k], k + 1)
  }

  /** A pending name is always trimmed: it is empty or the trimmed group of an `#EXTINF` line. */
  lemma StepPendingTrimmed(st: ParseState, raw: string)
    requires Trimmed(st.pending)
    ensures Trimmed(Step(st, raw).pending)
  {
  }

  lemma PendingOrWellNamed(st: ParseState, url: string)
    requires Trimmed(st.pending)
    ensures WellNamed(Entry(PendingOr(st), url), |st.imported| + 1)
  {
  }

  lemma AppendWellNamed(imported: seq<Entry>, e: Entry)
    requires forall k :: 0 <= k < |imported| ==> WellNamed(imported[k], k + 1)
    requires WellNamed(e, |imported| + 1)
    ensures forall k :: 0 <= k < |imported + [e]| ==> WellNamed((imported + [e])[k], k + 1)
  {
  }

  lemma StepKeepsNamesWellFormed(st: ParseState, raw: string)
    requires NamesWellFormed(st)
    ensures NamesWellFormed(Step(st, raw))
  {
    StepPendingTrimmed(st, raw);
    StepImported(st, raw);
    if IsAddressLine(raw) {
      PendingOrWellNamed(st, Trim(raw));
      AppendWellNamed(st.imported, Entry(PendingOr(st), Trim(raw)));
    }
  }

  /** Every imported name is either a non-empty trimmed `#EXTINF` name or `Radio k` for its 1-based position k. */
  lemma {:induction false} RunKeepsNamesWellFormed(lines: seq<string>, st: ParseState)
    requires NamesWellFormed(st)
    ensures NamesWellFormed(Run(lines, st))
  {
    if lines != [] {
      StepKeepsNamesWellFormed(st, lines[0]);
      RunKeepsNamesWellFormed(lines[1..], Step(st, lines[0]));
    }
  }

  /** An `#EXTINF:` line with no comma leaves the pending name as it is. */
  lemma {:induction false} NoCommaNoMatch(line: string)
    requires ',' !in line
    ensures MatchExtinf(line) == None
  {
    if |line| >= 8 {
      CommaGroupNeedsComma(line[8..]);
      MatchOnSuffix(line);
      NoCommaNoMatch(line[1..]);
    }
  }

  lemma {:induction false} CommaGroupNeedsComma(s: string)
    requires ',' !in s
    ensures CommaGroup(s) == None
  {
    if s != [] && !IsLineTerminator(s[0]) {
      assert ',' !in s[1..] by {
        forall k | 0 <= k < |s[1..]| ensures s[1..][k] != ',' {
          assert s[1..][k] == s[k + 1];
        }
      }
      CommaGroupNeedsComma(s[1..]);
    }
  }

  /** The lazy `.*?,` stops at the first comma on the line: the group is the rest of the line after it. */
  lemma {:induction false} FirstComma(p: string, q: string)
    requires ',' !in p && NoLineTerminator(p)
    ensures CommaGroup(p + "," + q) == Some(RestOfLine(q))
  {
    if p == [] {
      assert p + "," + q == [','] + q;
    } else {
      assert (p + "," + q)[0] == p[0] && (p + "," + q)[1..] == p[1..] + "," + q;
      assert ',' !in p[1..] && NoLineTerminator(p[1..]) by {
        forall k | 0 <= k < |p[1..]| ensures p[1..][k] != ',' && !IsLineTerminator(p[1..][k]) {
          assert p[1..][k] == p[k + 1];
        }
      }
      FirstComma(p[1..], q);
    }
  }

  /** A line starting `#EXTINF:` names whatever follows the first comma, up to the end of the line. */
  lemma ExtinfFirstComma(p: string, q: string)
    requires ',' !in p && NoLineTerminator(p)
    ensures MatchExtinf("#EXTINF:" + p + "," + q) == Some(RestOfLine(q))
  {
    var line := "#EXTINF:" + p + "," + q;
    assert line[..8] == "#EXTINF:" && line[8..] == p + "," + q;
    FirstComma(p, q);
  }

  lemma MatchOnSuffix(line: string)
    requires |line| >= 1 && ',' !in line
    ensures ',' !in line[1..]
  {
    forall k | 0 <= k < |line[1..]| ensures line[1..][k] != ',' {
      assert line[1..][k] == line[k + 1];
    }
  }

  /** Import yields exactly one entry per address line, and it is announced iff there is one. */
  lemma ReadCount(content: string)
    ensures |Parse(content)| == |AddressLines(SplitLines(content))|
    ensures Parse(content) != [] <==> AddressLines(SplitLines(content)) != []
  {
    RunYieldsAddressLines(SplitLines(content), Start);
    assert Urls(Start.imported) == [];
  }

  // ---------------------------------------------------------------------------
  // Round trip

  predicate NoLineTerminator(s: string) {
    forall k :: 0 <= k < |s| ==> !IsLineTerminator(s[k])
  }

  /**
   * A station the playlist carries back unchanged: a non-empty trimmed name on
   * one line, and a non-empty trimmed address on one line that does not look
   * like a directive.
   */
  predicate Exportable(s: Station) {
    && s.name != "" && Trimmed(s.name) && NoLineTerminator(s.name)
    && s.url != "" && Trimmed(s.url) && '\n' !in s.url && s.url[0] != '#'
  }

  function EntriesOf(stations: seq<Station>): (r: seq<Entry>)
    ensures |r| == |stations|
    ensures forall k :: 0 <= k < |r| ==> r[k] == Entry(stations[k].name, stations[k].url)
  {
    seq(|stations|, k requires 0 <= k < |stations| => Entry(stations[k].name, stations[k].url))
  }

  function PairLines(stations: seq<Station>): seq<string> {
    if stations == [] then []
    else [Tag(stations[0].name), stations[0].url] + PairLines(stations[1..])
  }

  lemma {:induction false} RestOfLineWhole(s: string)
    requires NoLineTerminator(s)
    ensures RestOfLine(s) == s
  {
    if s != [] {
      RestOfLineWhole(s[1..]);
    }
  }

  /** The name tag the export writes is read back as the name. */
  lemma ExtinfOfTag(name: string)
    requires NoLineTerminator(name)
    ensures MatchExtinf(Tag(name)) == Some(name)
  {
    var line := Tag(name);
    assert line[..8] == "#EXTINF:";
    var tail := line[8..];
    assert tail[0] == '-' && tail[1..] == "1," + name;
    assert tail[1..][0] == '1' && tail[1..][1..] == "," + name;
    assert ("," + name)[1..] == name;
    RestOfLineWhole(name);
    assert CommaGroup("," + name) == Some(name);
    assert CommaGroup(tail[1..]) == Some(name);
    assert CommaGroup(tail) == Some(name);
  }

  lemma TagChars(name: string)
    ensures |Tag(name)| == 11 + |name| && Tag(name)[0] == '#'
    ensures forall k :: 11 <= k < |Tag(name)| ==> Tag(name)[k] == name[k - 11]
    ensures Tag(name)[..8] == "#EXTINF:"
  {
  }

  lemma NoTerminatorNoNewline(s: string)
    requires NoLineTerminator(s)
    ensures '\n' !in s && DropCr(s) == s
  {
  }

  /** A written tag line is one line: it holds no line terminator. */
  lemma TagIsOneLine(name: string)
    requires NoLineTerminator(name)
    ensures '\n' !in Tag(name) && DropCr(Tag(name)) == Tag(name)
  {
    var tag := Tag(name);
    TagChars(name);
    assert NoLineTerminator(tag) by {
      assert forall k :: 0 <= k < 11 ==> !IsLineTerminator(tag[k]);
      assert forall k :: 11 <= k < |tag| ==> !IsLineTerminator(tag[k]);
    }
    NoTerminatorNoNewline(tag);
  }

  /** A written tag line is left as it is by `trim` and is recognised as an `#EXTINF:` line. */
  lemma TagIsTrimmed(name: string)
    requires name != "" && Trimmed(name)
    ensures Trim(Tag(name)) == Tag(name) && StartsWith(Tag(name), "#EXTINF:")
  {
    var tag := Tag(name);
    TagChars(name);
    assert tag[|tag| - 1] == name[|name| - 1];
    TrimOfTrimmed(tag);
  }

  /** Reading a written tag line makes its name the pending one. */
  lemma StepTag(acc: seq<Entry>, name: string)
    requires name != "" && Trimmed(name) && NoLineTerminator(name)
    ensures Step(ParseState("", acc), Tag(name)) == ParseState(name, acc)
  {
    TagIsTrimmed(name);
    ExtinfOfTag(name);
    TrimOfTrimmed(name);
  }

  /** Reading a written address line after a tag adds the entry and clears the pending name. */
  lemma StepAddress(acc: seq<Entry>, name: string, url: string)
    requires name != "" && url != "" && Trimmed(url) && url[0] != '#'
    ensures Step(ParseState(name, acc), url) == ParseState("", acc + [Entry(name, url)])
  {
    TrimOfTrimmed(url);
    assert !StartsWith(url, "#EXTINF:") && !StartsWith(url, "#") by {
      assert |url| >= 1 ==> url[..1][0] == url[0];
      assert |url| >= 8 ==> url[..8][0] == url[0];
    }
  }

  /** The header line is a directive the reader skips. */
  lemma StepHeader()
    ensures Step(Start, Header) == Start
  {
    assert Header[0] == '#' && Header[|Header| - 1] == 'U';
    TrimOfTrimmed(Header);
    assert StartsWith(Header, "#");
  }

  lemma SplitEmpty()
    ensures SplitLines("") == [""]
  {
    assert IndexOf("", '\n') == 0;
  }

  lemma EntryTextLines(s: Station, rest: string)
    ensures EntryText(s) + rest == Tag(s.name) + "\n" + (s.url + "\n" + rest)
  {
    var a, b, c := Tag(s.name), s.url, rest;
    assert a + "\n" + b + "\n" + c == a + "\n" + (b + "\n" + c);
  }

  lemma ConsTwo<T>(a: T, b: T, p: seq<T>, q: seq<T>)
    ensures [a] + ([b] + (p + q)) == ([a, b] + p) + q
    ensures [a] + ([b] + p) == [a, b] + p
    ensures ([a, b] + p) + q == [a, b] + (p + q)
  {
  }

  /** The two lines of one exported station split back into those lines. */
  lemma SplitEntry(s: Station, rest: string)
    requires Exportable(s)
    ensures SplitLines(EntryText(s) + rest) == [Tag(s.name), s.url] + SplitLines(rest)
  {
    var t, u := Tag(s.name), s.url + "\n" + rest;
    TagIsOneLine(s.name);
    EntryTextLines(s, rest);
    SplitLinesCons(t, u);
    assert SplitLines(EntryText(s) + rest) == [t] + SplitLines(u);
    SplitLinesCons(s.url, rest);
    assert DropCr(s.url) == s.url;
    assert SplitLines(u) == [s.url] + SplitLines(rest);
    ConsTwo(t, s.url, SplitLines(rest), []);
  }

  lemma {:induction false} SplitBody(stations: seq<Station>)
    requires forall k :: 0 <= k < |stations| ==> Exportable(stations[k])
    ensures SplitLines(Body(stations)) == PairLines(stations) + [""]
  {
    if stations == [] {
      SplitEmpty();
    } else {
      assert Exportable(stations[0]);
      SplitEntry(stations[0], Body(stations[1..]));
      SplitBody(stations[1..]);
      ConsTwo(Tag(stations[0].name), stations[0].url, PairLines(stations[1..]), [""]);
    }
  }

  /** The reading loop consumes two lines in two turns. */
  lemma RunTwo(lines: seq<string>, st: ParseState)
    requires |lines| >= 2
    ensures Run(lines, st) == Run(lines[2..], Step(Step(st, lines[0]), lines[1]))
  {
    assert lines[1..][1..] == lines[2..];
  }

  /** Reading the two lines of one exported station adds its entry. */
  lemma RunEntry(s: Station, acc: seq<Entry>, later: seq<string>)
    requires Exportable(s)
    ensures Run([Tag(s.name), s.url] + later, ParseState("", acc))
         == Run(later, ParseState("", acc + [Entry(s.name, s.url)]))
  {
    var lines := [Tag(s.name), s.url] + later;
    assert lines[0] == Tag(s.name) && lines[1] == s.url && lines[2..] == later;
    StepTag(acc, s.name);
    StepAddress(acc, s.name, s.url);
    RunTwo(lines, ParseState("", acc));
  }

  lemma {:induction false} RunPairs(stations: seq<Station>, acc: seq<Entry>, tail: seq<string>)
    requires forall k :: 0 <= k < |stations| ==> Exportable(stations[k])
    ensures Run(PairLines(stations) + tail, ParseState("", acc))
         == Run(tail, ParseState("", acc + EntriesOf(stations)))
  {
    if stations == [] {
      assert PairLines(stations) + tail == tail;
      assert acc + EntriesOf(stations) == acc;
    } else {
      var s := stations[0];
      var later := PairLines(stations[1..]) + tail;
      ConsTwo(Tag(s.name), s.url, PairLines(stations[1..]), tail);
      assert Exportable(s);
      RunEntry(s, acc, later);
      RunPairs(stations[1..], acc + [Entry(s.name, s.url)], tail);
      EntriesOfCons(stations);
      SnocThenAppend(acc, Entry(s.name, s.url), EntriesOf(stations[1..]));
    }
  }

  lemma EntriesOfCons(stations: seq<Station>)
    requires stations != []
    ensures EntriesOf(stations) == [Entry(stations[0].name, stations[0].url)] + EntriesOf(stations[1..])
  {
  }

  lemma SnocThenAppend<T>(a: seq<T>, x: T, b: seq<T>)
    ensures a + [x] + b == a + ([x] + b)
  {
  }

  lemma HeaderIsOneLine()
    ensures '\n' !in Header && DropCr(Header) == Header
  {
    assert NoLineTerminator(Header);
    NoTerminatorNoNewline(Header);
  }

  /** The lines of an exported playlist: the header, two per station, and the empty piece after the last line feed. */
  lemma SplitM3u(stations: seq<Station>)
    requires forall k :: 0 <= k < |stations| ==> Exportable(stations[k])
    ensures SplitLines(M3u(stations)) == [Header] + (PairLines(stations) + [""])
  {
    HeaderIsOneLine();
    assert M3u(stations) == Header + "\n" + Body(stations);
    SplitLinesCons(Header, Body(stations));
    SplitBody(stations);
  }

  /** The empty piece after the final line feed is skipped. */
  lemma RunBlank(st: ParseState)
    ensures Run([""], st) == st
  {
    assert Trim("") == "";
    assert [""][1..] == [];
  }

  /** The header line is read and skipped. */
  lemma RunHeader(rest: seq<string>)
    ensures Run([Header] + rest, Start) == Run(rest, Start)
  {
    assert ([Header] + rest)[1..] == rest;
    StepHeader();
  }

  /** Reading the lines of an exported playlist yields one entry per station. */
  lemma ReadExportedLines(stations: seq<Station>)
    requires forall k :: 0 <= k < |stations| ==> Exportable(stations[k])
    ensures Run([Header] + (PairLines(stations) + [""]), Start).imported == EntriesOf(stations)
  {
    RunHeader(PairLines(stations) + [""]);
    ReadPairs(stations);
  }

  /** The entry lines and the final empty line, read from the start, yield one entry per station. */
  lemma ReadPairs(stations: seq<Station>)
    requires forall k :: 0 <= k < |stations| ==> Exportable(stations[k])
    ensures Run(PairLines(stations) + [""], Start) == ParseState("", EntriesOf(stations))
  {
    RunPairs(stations, [], [""]);
    assert [] + EntriesOf(stations) == EntriesOf(stations);
    RunBlank(ParseState("", EntriesOf(stations)));
  }

  /** Exporting a dial and importing the file gives back its (name, address) pairs, in order. */
  lemma ExportThenImport(stations: seq<Station>)
    requires stations != []
    requires forall k :: 0 <= k < |stations| ==> Exportable(stations[k])
    ensures Parse(M3u(stations)) == EntriesOf(stations)
  {
    SplitM3u(stations);
    ReadExportedLines(stations);
  }
}
