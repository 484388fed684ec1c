/** The title-named downloader (`dow2.js`): the playability gate, the format
    check, and the file name derived from the video title. The player
    request and the stream download are not modelled; their results are the
    inputs here. */
module TitleDownload {
  import opened Options
  import opened Strings

  /** The characters the title sanitiser replaces. */
  predicate Forbidden(c: char) {
    c == '/' || c == '\\' || c == '?' || c == '%' || c == '*' || c == ':' || c == '|' || c == '"' || c == '<' || c == '>'
  }

  function SanitizeChar(c: char): char {
    if Forbidden(c) then '-' else c
  }

  /** `title.replace(/[\/\\?%*:|"<>]/g, '-')`. */
  function Sanitize(title: string): (r: string)
    ensures |r| == |title|
    ensures forall i :: 0 <= i < |title| ==> !Forbidden(r[i])
    ensures forall i :: 0 <= i < |title| ==> (if Forbidden(title[i]) then r[i] == '-' else r[i] == title[i])
  {
    if |title| == 0 then "" else [SanitizeChar(title[0])] + Sanitize(title[1..])
  }

  /** Sanitising is idempotent, and it leaves a title free of forbidden
      characters unchanged. */
  lemma SanitizeIdempotent(title: string)
    ensures Sanitize(Sanitize(title)) == Sanitize(title)
    ensures (forall i :: 0 <= i < |title| ==> !Forbidden(title[i])) ==> Sanitize(title) == title
  {
  }

  /** The name the video is saved under. */
  function FileName(title: string): string {
    Sanitize(title) + ".mp4"
  }

  /** Whatever the title, the saved file is a single plain name inside the
      output directory: the sanitiser removes both path separators. */
  lemma FileNameIsPlain(outDir: string, title: string)
    ensures PlainSegment(FileName(title))
    ensures InsideDir(JoinPath(outDir, FileName(title)), outDir)
  {
    var name := FileName(title);
    forall i | 0 <= i < |name|
      ensures name[i] != '/' && name[i] != '\\'
    {
      if i >= |title| {
        assert name[i] == ".mp4"[i - |title|];
      }
    }
    var p := JoinPath(outDir, name);
    assert p[..|outDir| + 1] == outDir + "/";
    assert p[|outDir| + 1..] == name;
  }

  /** One adaptive format; `mime` is absent when the format has no type. */
  datatype Format = Format(mime: Option<string>, url: string)

  predicate IsMp4(f: Format) {
    f.mime.Some? && Contains(f.mime.value, "video/mp4")
  }

  /** `formats.find(mp4) || formats[0]`. */
  function BestFormat(formats: seq<Format>): (r: Option<Format>)
    ensures r.None? <==> |formats| == 0
    ensures r.Some? ==> r.value in formats
    ensures (exists k :: 0 <= k < |formats| && IsMp4(formats[k])) ==>
      r.Some? && IsMp4(r.value) &&
      (exists k :: 0 <= k < |formats| && formats[k] == r.value && forall j :: 0 <= j < k ==> !IsMp4(formats[j]))
    ensures (forall k :: 0 <= k < |formats| ==> !IsMp4(formats[k])) && |formats| > 0 ==> r == Some(formats[0])
  {
    FirstMp4Or(formats, 0)
  }

  function FirstMp4Or(formats: seq<Format>, from: nat): (r: Option<Format>)
    requires from <= |formats|
    ensures r.None? <==> |formats| == 0
    ensures r.Some? ==> r.value in formats
    ensures (exists k :: from <= k < |formats| && IsMp4(formats[k])) ==>
      r.Some? && IsMp4(r.value) &&
      (exists k :: from <= k < |formats| && formats[k] == r.value && forall j :: from <= j < k ==> !IsMp4(formats[j]))
    ensures (forall k :: from <= k < |formats| ==> !IsMp4(formats[k])) && |formats| > 0 ==> r == Some(formats[0])
    decreases |formats| - from
  {
    if from == |formats| then (if |formats| == 0 then None else Some(formats[0]))
    else if IsMp4(formats[from]) then Some(formats[from])
    else FirstMp4Or(formats, from + 1)
  }

  /** What the player response reports. `formats` is absent when the
      response has no streaming data. */
  datatype PlayerInfo = PlayerInfo(status: Option<string>, title: string, formats: Option<seq<Format>>)

  datatype Outcome = NotPlayable | NoFormat | Save(path: string)

  /** `downloadVideo` up to the write: stop when the playability status is
      not `OK`, stop when there is no format at all, else save under the
      sanitised title. The format found only gates the download. */
  function PlanDownload(info: PlayerInfo, outDir: string): (o: Outcome)
    ensures o.NotPlayable? <==> info.status != Some("OK")
    ensures o.NoFormat? <==> info.status == Some("OK") && info.formats.GetOr([]) == []
    ensures o.Save? ==> o.path == JoinPath(outDir, FileName(info.title)) && InsideDir(o.path, outDir)
  {
    if info.status != Some("OK") then NotPlayable
    else
      match BestFormat(info.formats.GetOr([]))
      case None => NoFormat
      case Some(_) =>
        FileNameIsPlain(outDir, info.title);
        Save(JoinPath(outDir, FileName(info.title)))
  }
}
