/** The profile configuration file: one `profileId|apiKey|ch1,ch2,...` line per
    profile. The same parser is written out three times in the system (the
    `load-profiles` and `select-profiles-file` handlers of the supervisor, the
    control center's `parseProfiles`, and the command-line launcher); all three
    agree, so it is modelled once here. */
module ProfileFile {
  import opened Options
  import opened Strings
  import opened Seqs

  datatype Profile = Profile(profileId: string, apiKey: string, channels: seq<string>)

  /** Drops one carriage return that ends a piece. */
  function DropCR(p: string): string {
    if |p| > 0 && p[|p| - 1] == '\r' then p[..|p| - 1] else p
  }

  predicate EndsWithCR(p: string) {
    |p| > 0 && p[|p| - 1] == '\r'
  }

  /** Every piece but the last loses a carriage return that preceded its
      line feed; `DropCRsPieces` spells out what that leaves of each piece. */
  function DropCRs(pieces: seq<string>): (r: seq<string>)
    ensures |r| == |pieces|
    ensures forall k :: 0 <= k < |r| ==> r[k] == if k < |r| - 1 then DropCR(pieces[k]) else pieces[k]
  {
    if |pieces| <= 1 then pieces
    else
      var rest := DropCRs(pieces[1..]);
      var r := [DropCR(pieces[0])] + rest;
      assert forall k :: 1 <= k < |r| ==> r[k] == rest[k - 1] && pieces[k] == pieces[1..][k - 1];
      r
  }

  /** A piece ending in a carriage return keeps everything before it, any
      other piece and the last one are kept whole, nothing new appears, and
      input without carriage returns comes back unchanged. */
  lemma DropCRsPieces(pieces: seq<string>)
    ensures forall k :: 0 <= k < |pieces| - 1 && EndsWithCR(pieces[k]) ==> DropCRs(pieces)[k] + "\r" == pieces[k]
    ensures forall k :: 0 <= k < |pieces| - 1 && !EndsWithCR(pieces[k]) ==> DropCRs(pieces)[k] == pieces[k]
    ensures |pieces| > 0 ==> DropCRs(pieces)[|pieces| - 1] == pieces[|pieces| - 1]
    ensures forall k :: 0 <= k < |pieces| ==> Within(DropCRs(pieces)[k], pieces[k])
    ensures (forall k :: 0 <= k < |pieces| ==> !EndsWithCR(pieces[k])) ==> DropCRs(pieces) == pieces
  {
    var r := DropCRs(pieces);
    forall k | 0 <= k < |pieces|
      ensures k < |pieces| - 1 && EndsWithCR(pieces[k]) ==> r[k] + "\r" == pieces[k]
      ensures !EndsWithCR(pieces[k]) ==> r[k] == pieces[k]
      ensures Within(r[k], pieces[k])
    {
      DropCRFacts(pieces[k]);
    }
  }

  lemma DropCRFacts(p: string)
    ensures EndsWithCR(p) ==> DropCR(p) + "\r" == p
    ensures !EndsWithCR(p) ==> DropCR(p) == p
    ensures Within(DropCR(p), p)
  {
    if EndsWithCR(p) {
      assert p[..|p| - 1] + "\r" == p;
    }
  }

  /** Every line but the last followed by a carriage return: the pieces of
      a file written with CR LF line ends. */
  function WithCRs(lines: seq<string>): (r: seq<string>)
    ensures |r| == |lines|
  {
    if |lines| <= 1 then lines else [lines[0] + "\r"] + WithCRs(lines[1..])
  }

  lemma {:induction false} DropCRsWithCRs(lines: seq<string>)
    ensures DropCRs(WithCRs(lines)) == lines
  {
    if |lines| > 1 {
      DropCRsWithCRs(lines[1..]);
      var w := WithCRs(lines);
      assert w[1..] == WithCRs(lines[1..]);
      assert EndsWithCR(w[0]);
      assert (lines[0] + "\r")[..|lines[0]|] == lines[0];
      HeadTail(lines);
    }
  }

  /** `raw.split(/\r?\n/)`: line feeds separate lines and swallow one
      carriage return right before them. */
  function SplitLines(raw: string): (lines: seq<string>)
    ensures |lines| >= 1
    ensures forall k :: 0 <= k < |lines| ==> '\n' !in lines[k]
  {
    DropCRs(Split(raw, '\n'))
  }

  /** Text without a line feed is one line, carriage returns included. */
  lemma SplitLinesSingle(raw: string)
    requires '\n' !in raw
    ensures SplitLines(raw) == [raw]
  {
    SplitWithoutSeparator(raw, '\n');
  }

  /** The first line feed ends the first line, which loses one carriage
      return before it. */
  lemma SplitLinesAppend(x: string, y: string)
    requires '\n' !in x
    ensures SplitLines(x + "\n" + y) == [DropCR(x)] + SplitLines(y)
  {
    SplitAtFirst(x, y, '\n');
    var pieces := [x] + Split(y, '\n');
    assert pieces[1..] == Split(y, '\n');
  }

  /** Lines joined by line feeds, or by CR LF pairs, split back into the
      same lines. */
  lemma SplitLinesJoin(lines: seq<string>)
    requires |lines| >= 1
    requires forall k :: 0 <= k < |lines| ==> '\n' !in lines[k]
    requires forall k :: 0 <= k < |lines| - 1 ==> !EndsWithCR(lines[k])
    ensures SplitLines(Join(lines, '\n')) == lines
    ensures SplitLines(Join(WithCRs(lines), '\n')) == lines
  {
    SplitJoin(lines, '\n');
    DropCRsKeepsLast(lines);
    WithCRsLines(lines);
    SplitJoin(WithCRs(lines), '\n');
    DropCRsWithCRs(lines);
  }

  /** A carriage return ending the last piece is kept. */
  lemma {:induction false} DropCRsKeepsLast(lines: seq<string>)
    requires forall k :: 0 <= k < |lines| - 1 ==> !EndsWithCR(lines[k])
    ensures DropCRs(lines) == lines
  {
    if |lines| > 1 {
      DropCRsKeepsLast(lines[1..]);
      HeadTail(lines);
    }
  }

  lemma {:induction false} WithCRsLines(lines: seq<string>)
    requires forall k :: 0 <= k < |lines| ==> '\n' !in lines[k]
    ensures forall k :: 0 <= k < |lines| ==> '\n' !in WithCRs(lines)[k]
  {
    if |lines| > 1 {
      WithCRsLines(lines[1..]);
      var w := WithCRs(lines);
      assert forall k :: 1 <= k < |lines| ==> w[k] == WithCRs(lines[1..])[k - 1];
      assert '\n' !in lines[0] + "\r";
    }
  }

  /** A trimmed line that is skipped before field splitting: blank, or a
      `#` comment. */
  predicate Ignored(line: string) {
    line == "" || StartsWith(line, "#")
  }

  /** `pieces.map(p => p.trim())` */
  function TrimEach(pieces: seq<string>): (r: seq<string>)
    ensures |r| == |pieces|
    ensures forall k :: 0 <= k < |r| ==> Trimmed(r[k])
    ensures forall k :: 0 <= k < |r| ==> r[k] == Trim(pieces[k])
  {
    if |pieces| == 0 then [] else [Trim(pieces[0])] + TrimEach(pieces[1..])
  }

  lemma TrimEachTrimmed(pieces: seq<string>)
    requires forall k :: 0 <= k < |pieces| ==> Trimmed(pieces[k])
    ensures TrimEach(pieces) == pieces
  {
  }

  /** `pieces.filter(Boolean)` on strings: drops the empty ones, keeping the
      order of the rest. */
  function NonEmpty(pieces: seq<string>): (r: seq<string>)
    ensures |r| <= |pieces|
    ensures forall k :: 0 <= k < |r| ==> r[k] != "" && r[k] in pieces
    ensures forall k :: 0 <= k < |pieces| && pieces[k] != "" ==> pieces[k] in r
    ensures (forall k :: 0 <= k < |pieces| ==> pieces[k] != "") ==> r == pieces
  {
    if |pieces| == 0 then []
    else
      var rest := NonEmpty(pieces[1..]);
      assert forall k :: 1 <= k < |pieces| ==> pieces[k] == pieces[1..][k - 1];
      if pieces[0] == "" then rest else [pieces[0]] + rest
  }

  lemma {:induction false} NonEmptyAppend(a: seq<string>, b: seq<string>)
    ensures NonEmpty(a + b) == NonEmpty(a) + NonEmpty(b)
    ensures NonEmpty([""]) == [] && forall p :: p != "" ==> NonEmpty([p]) == [p]
  {
    if |a| > 0 {
      AppendTail(a, b);
      NonEmptyAppend(a[1..], b);
      if a[0] != "" {
        AppendAssoc([a[0]], NonEmpty(a[1..]), NonEmpty(b));
      }
    } else {
      assert a + b == b;
    }
    assert [""][1..] == [];
  }

  lemma {:induction false} TrimEachAppend(a: seq<string>, b: seq<string>)
    ensures TrimEach(a + b) == TrimEach(a) + TrimEach(b)
  {
    if |a| > 0 {
      AppendTail(a, b);
      TrimEachAppend(a[1..], b);
      AppendAssoc([Trim(a[0])], TrimEach(a[1..]), TrimEach(b));
    } else {
      assert a + b == b;
    }
  }

  /** A channel id as the parser hands it out. */
  predicate ChannelName(c: string) {
    c != "" && Trimmed(c) && ',' !in c && '|' !in c && '\n' !in c
  }

  /** A profile id or API key as the parser hands it out. */
  predicate FieldText(f: string) {
    Trimmed(f) && '|' !in f && '\n' !in f
  }

  /** The profiles the parser can produce; `RenderParseRoundTrip` shows it
      produces every one of them. */
  predicate Renderable(p: Profile) {
    && FieldText(p.profileId)
    && FieldText(p.apiKey)
    && !StartsWith(p.profileId, "#")
    && forall k :: 0 <= k < |p.channels| ==> ChannelName(p.channels[k])
  }

  /** Field 2 of a line: empty gives no channels, otherwise split on commas,
      trim each, drop empties. */
  function SplitChannels(field: string): (chs: seq<string>)
    ensures forall k :: 0 <= k < |chs| ==> chs[k] != "" && Trimmed(chs[k]) && ',' !in chs[k]
    ensures forall k :: 0 <= k < |chs| ==> Within(chs[k], field)
    ensures forall k :: 0 <= k < |chs| ==> chs[k] in TrimEach(Split(field, ','))
    ensures forall k :: 0 <= k < |Split(field, ',')| && Trim(Split(field, ',')[k]) != "" ==>
      Trim(Split(field, ',')[k]) in chs
  {
    if field == "" then []
    else
      var pieces := Split(field, ',');
      var trimmed := TrimEach(pieces);
      assert forall j :: 0 <= j < |trimmed| ==> Within(trimmed[j], field) by {
        forall j | 0 <= j < |trimmed|
          ensures Within(trimmed[j], field)
        {
          WithinTrans(trimmed[j], pieces[j], field);
        }
      }
      NonEmptyWithin(trimmed, field);
      NonEmpty(trimmed)
  }

  /** The empty field is no special case: it is the filter of its one
      empty piece. */
  lemma SplitChannelsFilter(field: string)
    ensures SplitChannels(field) == NonEmpty(TrimEach(Split(field, ',')))
  {
    if field == "" {
      assert Split(field, ',') == [""];
      assert TrimEach([""]) == [""];
      NonEmptyAppend([], []);
    }
  }

  /** A comma splits the channel field into two independently parsed
      halves. */
  lemma SplitChannelsAppend(a: string, b: string)
    ensures SplitChannels(a + [','] + b) == SplitChannels(a) + SplitChannels(b)
  {
    SplitChannelsFilter(a + [','] + b);
    SplitChannelsFilter(a);
    SplitChannelsFilter(b);
    SplitAppend(a, b, ',');
    TrimEachAppend(Split(a, ','), Split(b, ','));
    NonEmptyAppend(TrimEach(Split(a, ',')), TrimEach(Split(b, ',')));
  }

  /** A field without a comma names at most one channel: itself, trimmed. */
  lemma SplitChannelsOne(field: string)
    requires ',' !in field
    ensures SplitChannels(field) == (if Trim(field) == "" then [] else [Trim(field)])
  {
    SplitChannelsFilter(field);
    SplitWithoutSeparator(field, ',');
    assert TrimEach([field]) == [Trim(field)];
    NonEmptyAppend([], []);
  }

  /** Dropping empty pieces keeps only pieces drawn from `field`. */
  lemma NonEmptyWithin(pieces: seq<string>, field: string)
    requires forall j :: 0 <= j < |pieces| ==> Within(pieces[j], field)
    ensures forall k :: 0 <= k < |NonEmpty(pieces)| ==> Within(NonEmpty(pieces)[k], field)
  {
    var r := NonEmpty(pieces);
    forall k | 0 <= k < |r|
      ensures Within(r[k], field)
    {
      var j :| 0 <= j < |pieces| && r[k] == pieces[j];
    }
  }

  /** One kept line: split on `|`, trim each field; fewer than three fields
      skip the line, and fields after the third are ignored. */
  function ParseLine(line: string): (r: Option<Profile>)
    ensures r.None? <==> |Split(line, '|')| < 3
    ensures r.Some? ==> r.value.profileId == Trim(Split(line, '|')[0])
    ensures r.Some? ==> r.value.apiKey == Trim(Split(line, '|')[1])
    ensures r.Some? ==> r.value.channels == SplitChannels(Trim(Split(line, '|')[2]))
  {
    var parts := TrimEach(Split(line, '|'));
    if |parts| < 3 then None
    else Some(Profile(parts[0], parts[1], SplitChannels(parts[2])))
  }

  /** Fields after the third do not change what a line parses to. */
  lemma ParseLineExtraFields(a: string, b: string, c: string, rest: string)
    requires '|' !in a && '|' !in b && '|' !in c
    ensures ParseLine(a + "|" + b + "|" + c + "|" + rest) == ParseLine(a + "|" + b + "|" + c)
  {
    assert a + "|" + b + "|" + c + "|" + rest == a + ['|'] + (b + ['|'] + (c + ['|'] + rest));
    assert a + "|" + b + "|" + c == a + ['|'] + (b + ['|'] + c);
    SplitAtFirst(a, b + ['|'] + (c + ['|'] + rest), '|');
    SplitAtFirst(b, c + ['|'] + rest, '|');
    SplitAtFirst(c, rest, '|');
    SplitAtFirst(a, b + ['|'] + c, '|');
    SplitAtFirst(b, c, '|');
    SplitWithoutSeparator(c, '|');
  }

  /** What a kept line parses to is a renderable profile. */
  lemma ParseLineRenderable(line: string)
    requires '\n' !in line && Trimmed(line) && !StartsWith(line, "#")
    requires ParseLine(line).Some?
    ensures Renderable(ParseLine(line).value)
  {
    var pieces := Split(line, '|');
    var parts := TrimEach(pieces);
    var p := ParseLine(line).value;
    assert p.profileId == parts[0] && p.apiKey == parts[1];
    assert '|' !in parts[0] && '\n' !in parts[0];
    assert '|' !in parts[1] && '\n' !in parts[1];
    FirstFieldStartsLine(line);
    var chs := SplitChannels(parts[2]);
    assert p.channels == chs;
    assert '|' !in parts[2] && '\n' !in parts[2];
    forall k | 0 <= k < |chs|
      ensures ChannelName(chs[k])
    {
      assert '|' !in chs[k] && '\n' !in chs[k];
    }
  }

  /** The trimmed first field of a trimmed line begins with the line's own
      first character, so a line that is not a comment cannot yield an id
      that starts with `#`. */
  lemma FirstFieldStartsLine(line: string)
    ensures Trimmed(line) && !StartsWith(line, "#") ==> !StartsWith(Trim(Split(line, '|')[0]), "#")
  {
    var f := Split(line, '|')[0];
    if Trimmed(line) && !StartsWith(line, "#") && |Trim(f)| > 0 {
      assert |f| > 0;
      assert f[0] == line[0];
      TrimKeepsFirst(f);
      assert line[..1] == [line[0]];
    }
  }

  /** The profiles one raw line contributes: none for a blank, comment or
      malformed line, otherwise exactly the parsed one. */
  function LineProfiles(line: string): (ps: seq<Profile>)
    ensures |ps| <= 1
  {
    var t := Trim(line);
    if Ignored(t) then []
    else
      match ParseLine(t)
      case None => []
      case Some(p) => [p]
  }

  /** A line contributes nothing exactly when its trimmed text is blank, a
      comment, or has fewer than three fields. */
  lemma LineProfilesEmpty(line: string)
    ensures LineProfiles(line) == [] <==> Ignored(Trim(line)) || |Split(Trim(line), '|')| < 3
  {
  }

  /** What a single-line string contributes is renderable. */
  lemma LineProfilesRenderable(line: string)
    requires '\n' !in line
    ensures forall k :: 0 <= k < |LineProfiles(line)| ==> Renderable(LineProfiles(line)[k])
  {
    var t := Trim(line);
    if !Ignored(t) && ParseLine(t).Some? {
      assert '\n' !in t;
      ParseLineRenderable(t);
    }
  }

  function ParseLines(lines: seq<string>): (ps: seq<Profile>)
    ensures |ps| <= |lines|
  {
    if |lines| == 0 then [] else LineProfiles(lines[0]) + ParseLines(lines[1..])
  }

  lemma {:induction false} ParseLinesRenderable(lines: seq<string>)
    requires forall i :: 0 <= i < |lines| ==> '\n' !in lines[i]
    ensures forall k :: 0 <= k < |ParseLines(lines)| ==> Renderable(ParseLines(lines)[k])
  {
    if |lines| > 0 {
      ParseLinesRenderable(lines[1..]);
      LineProfilesRenderable(lines[0]);
      var head, rest := LineProfiles(lines[0]), ParseLines(lines[1..]);
      assert ParseLines(lines) == head + rest;
      forall k | 0 <= k < |head + rest|
        ensures Renderable((head + rest)[k])
      {
        if k >= |head| {
          assert (head + rest)[k] == rest[k - |head|];
        }
      }
    }
  }

  /** The whole file: every profile that comes out is one the parser can
      produce, and there are never more profiles than lines. */
  function ParseProfiles(raw: string): (ps: seq<Profile>)
    ensures |ps| <= |SplitLines(raw)|
    ensures forall k :: 0 <= k < |ps| ==> Renderable(ps[k])
  {
    ParseLinesRenderable(SplitLines(raw));
    ParseLines(SplitLines(raw))
  }

  /** A carriage return at the end of a line is white space, so dropping
      it changes nothing the line contributes. */
  lemma LineProfilesDropCR(line: string)
    ensures LineProfiles(DropCR(line)) == LineProfiles(line)
  {
    if EndsWithCR(line) {
      TrimDropsTrailingSpace(line);
    }
  }

  lemma {:induction false} ParseLinesDropCRs(lines: seq<string>)
    ensures ParseLines(DropCRs(lines)) == ParseLines(lines)
  {
    if |lines| > 1 {
      ParseLinesDropCRs(lines[1..]);
      LineProfilesDropCR(lines[0]);
      var d := DropCRs(lines);
      assert d[1..] == DropCRs(lines[1..]);
    }
  }

  /** Carriage returns before line feeds do not matter: the file parses as
      if split on line feeds alone. */
  lemma ParseProfilesIgnoresCRs(raw: string)
    ensures ParseProfiles(raw) == ParseLines(Split(raw, '\n'))
  {
    ParseLinesDropCRs(Split(raw, '\n'));
  }

  /** A file written with CR LF line ends parses exactly as the same file
      written with LF line ends. */
  lemma ParseProfilesCRLF(lines: seq<string>)
    requires forall k :: 0 <= k < |lines| ==> '\n' !in lines[k]
    ensures ParseProfiles(Join(WithCRs(lines), '\n')) == ParseProfiles(Join(lines, '\n'))
  {
    if |lines| > 0 {
      ParseProfilesIgnoresCRs(Join(WithCRs(lines), '\n'));
      ParseProfilesIgnoresCRs(Join(lines, '\n'));
      WithCRsLines(lines);
      SplitJoin(WithCRs(lines), '\n');
      SplitJoin(lines, '\n');
      ParseLinesDropCRs(WithCRs(lines));
      DropCRsWithCRs(lines);
    }
  }

  /** Lines contribute independently of each other. */
  lemma {:induction false} ParseLinesAppend(a: seq<string>, b: seq<string>)
    ensures ParseLines(a + b) == ParseLines(a) + ParseLines(b)
  {
    if |a| > 0 {
      assert (a + b)[1..] == a[1..] + b;
      ParseLinesAppend(a[1..], b);
      var head := LineProfiles(a[0]);
      assert ParseLines(a + b) == head + (ParseLines(a[1..]) + ParseLines(b));
      assert ParseLines(a) == head + ParseLines(a[1..]);
      AppendAssoc(head, ParseLines(a[1..]), ParseLines(b));
    } else {
      assert a + b == b;
    }
  }

  lemma SkippedLineEmpty(line: string)
    requires Ignored(Trim(line)) || |Split(Trim(line), '|')| < 3
    ensures ParseLines([line]) == []
  {
    LineProfilesEmpty(line);
    assert [line][1..] == [];
  }

  /** A blank line, a `#` comment or a line with fewer than three
      `|`-fields can be inserted anywhere without changing the result. */
  lemma {:induction false} SkippedLineContributesNothing(before: seq<string>, line: string, after: seq<string>)
    requires Ignored(Trim(line)) || |Split(Trim(line), '|')| < 3
    ensures ParseLines(before + [line] + after) == ParseLines(before + after)
  {
    SkippedLineEmpty(line);
    InsertUnparsedLines(before, [line], after);
  }

  lemma {:induction false} InsertUnparsedLines(before: seq<string>, mid: seq<string>, after: seq<string>)
    requires ParseLines(mid) == []
    ensures ParseLines(before + mid + after) == ParseLines(before + after)
  {
    ParseLinesAppend(before + mid, after);
    ParseLinesAppend(before, mid);
    assert ParseLines(before + mid) == ParseLines(before);
    ParseLinesAppend(before, after);
  }

  /** The line a profile is written as. */
  function FormatLine(p: Profile): string {
    p.profileId + "|" + p.apiKey + "|" + Join(p.channels, ',')
  }

  function FormatLines(ps: seq<Profile>): (lines: seq<string>)
    ensures |lines| == |ps|
    ensures forall k :: 0 <= k < |ps| ==> lines[k] == FormatLine(ps[k])
  {
    if |ps| == 0 then [] else [FormatLine(ps[0])] + FormatLines(ps[1..])
  }

  /** A whole profile file, one line per profile, joined by line feeds. */
  function Render(ps: seq<Profile>): string {
    Join(FormatLines(ps), '\n')
  }

  lemma ChannelsJoinTrimmed(chs: seq<string>)
    requires forall k :: 0 <= k < |chs| ==> ChannelName(chs[k])
    ensures Trimmed(Join(chs, ','))
    ensures chs == [] <==> Join(chs, ',') == ""
    ensures '|' !in Join(chs, ',') && '\n' !in Join(chs, ',')
  {
    if |chs| > 0 {
      JoinEnds(chs, ',');
    }
    JoinAvoids(chs, ',', '|');
    JoinAvoids(chs, ',', '\n');
  }

  /** The three fields come back out of a renderable profile's line. */
  lemma FormatLineFields(p: Profile)
    requires Renderable(p)
    ensures Split(FormatLine(p), '|') == [p.profileId, p.apiKey, Join(p.channels, ',')]
  {
    var id, key, cj := p.profileId, p.apiKey, Join(p.channels, ',');
    ChannelsJoinTrimmed(p.channels);
    assert FormatLine(p) == id + ['|'] + (key + ['|'] + cj);
    SplitAtFirst(id, key + ['|'] + cj, '|');
    SplitAtFirst(key, cj, '|');
    SplitWithoutSeparator(cj, '|');
  }

  /** A renderable profile's line is already trimmed, single-line, and
      neither blank nor a comment. */
  lemma FormatLineKept(p: Profile)
    requires Renderable(p)
    ensures '\n' !in FormatLine(p) && !EndsWithCR(FormatLine(p))
    ensures Trimmed(FormatLine(p)) && !Ignored(FormatLine(p))
  {
    var id, key, cj := p.profileId, p.apiKey, Join(p.channels, ',');
    ChannelsJoinTrimmed(p.channels);
    var line := FormatLine(p);
    assert line == id + ['|'] + (key + ['|'] + cj);
    assert line[0] == (if |id| > 0 then id[0] else '|');
    assert line[|line| - 1] == (if |cj| > 0 then cj[|cj| - 1] else '|');
    assert !StartsWith(line, "#") by {
      if |id| > 0 {
        assert id[..1] == [id[0]];
      }
    }
  }

  /** The channel field of a renderable profile splits back into its
      channels. */
  lemma ChannelsRoundTrip(chs: seq<string>)
    requires forall k :: 0 <= k < |chs| ==> ChannelName(chs[k])
    ensures SplitChannels(Join(chs, ',')) == chs
  {
    ChannelsJoinTrimmed(chs);
    if chs != [] {
      var cj := Join(chs, ',');
      SplitJoin(chs, ',');
      assert Split(cj, ',') == chs;
      assert forall k :: 0 <= k < |chs| ==> Trimmed(chs[k]) && chs[k] != "";
      assert TrimEach(chs) == chs;
      assert NonEmpty(chs) == chs;
      assert SplitChannels(cj) == NonEmpty(TrimEach(Split(cj, ',')));
    }
  }

  /** A renderable profile's line parses back to the profile. */
  lemma FormatLineParses(p: Profile)
    requires Renderable(p)
    ensures '\n' !in FormatLine(p) && !EndsWithCR(FormatLine(p))
    ensures LineProfiles(FormatLine(p)) == [p]
  {
    FormatLineKept(p);
    FormatLineFieldsParse(p);
    KeptLineProfiles(FormatLine(p));
  }

  lemma FormatLineFieldsParse(p: Profile)
    requires Renderable(p)
    ensures ParseLine(FormatLine(p)) == Some(p)
  {
    var cj := Join(p.channels, ',');
    FormatLineFields(p);
    ChannelsJoinTrimmed(p.channels);
    ChannelsRoundTrip(p.channels);
    TrimmedFieldsParse(FormatLine(p), p.profileId, p.apiKey, cj);
  }

  /** A line whose three fields are already trimmed parses to them. */
  lemma TrimmedFieldsParse(line: string, id: string, key: string, cj: string)
    requires Split(line, '|') == [id, key, cj]
    requires Trimmed(id) && Trimmed(key) && Trimmed(cj)
    ensures ParseLine(line) == Some(Profile(id, key, SplitChannels(cj)))
  {
    TrimEachTrimmed([id, key, cj]);
  }

  lemma KeptLineProfiles(line: string)
    requires Trimmed(line) && !Ignored(line) && ParseLine(line).Some?
    ensures LineProfiles(line) == [ParseLine(line).value]
  {
  }

  lemma {:induction false} ParseFormattedLines(ps: seq<Profile>)
    requires forall k :: 0 <= k < |ps| ==> Renderable(ps[k])
    ensures ParseLines(FormatLines(ps)) == ps
  {
    if |ps| > 0 {
      FormatLineParses(ps[0]);
      ParseFormattedLines(ps[1..]);
      assert FormatLines(ps)[1..] == FormatLines(ps[1..]);
      HeadTail(ps);
    }
  }

  /** Parsing the rendering of renderable profiles gives them back, in
      order: together with `ParseProfiles`' own postcondition, the profiles a
      file can describe are exactly the renderable ones. */
  lemma RenderParseRoundTrip(ps: seq<Profile>)
    requires forall k :: 0 <= k < |ps| ==> Renderable(ps[k])
    ensures ParseProfiles(Render(ps)) == ps
  {
    var lines := FormatLines(ps);
    if |ps| == 0 {
      assert Split("", '\n') == [""];
      assert ParseLines([""]) == LineProfiles("") + ParseLines([]);
    } else {
      forall k | 0 <= k < |lines|
        ensures '\n' !in lines[k] && !EndsWithCR(lines[k])
      {
        FormatLineParses(ps[k]);
      }
      SplitJoin(lines, '\n');
      assert SplitLines(Render(ps)) == lines;
      ParseFormattedLines(ps);
    }
  }

  /** `profiles.find(p => p.profileId === id)`. */
  function FindProfile(ps: seq<Profile>, id: string): (r: Option<Profile>)
    ensures r.None? <==> forall i :: 0 <= i < |ps| ==> ps[i].profileId != id
    ensures r.Some? ==> exists i :: 0 <= i < |ps| && ps[i] == r.value && r.value.profileId == id
                                    && forall j :: 0 <= j < i ==> ps[j].profileId != id
  {
    if |ps| == 0 then None
    else if ps[0].profileId == id then Some(ps[0])
    else
      var r := FindProfile(ps[1..], id);
      assert forall i :: 1 <= i < |ps| ==> ps[i] == ps[1..][i - 1];
      r
  }
}
