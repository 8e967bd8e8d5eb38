/**
 * The transcript downloader: video-id extraction from a URL, resolution of
 * an id-or-URL argument, fetching through an external transcript service,
 * and saving the caption texts as a newline-terminated text file.
 *
 * The transcript service and the file system are parameters: the service is
 * a function from (video id, language preferences) to an outcome, and a file
 * write is a function from (path, content) to whether it succeeded.
 */
module Transcript {
  import opened Wrappers
  import opened Strings
  import opened Paths

  /** The marker of a watch URL (`...watch?v=<id>...`). */
  const WatchMarker := "v="
  /** The marker of a short URL (`...youtu.be/<id>...`). */
  const ShortMarker := "youtu.be/"
  /** Video ids are cut to this many characters. */
  const IdLength: nat := 11
  /** A download argument containing either of these is treated as a URL. */
  const LongDomain := "youtube.com"
  const ShortDomain := "youtu.be"
  /** The downloader's default language preference order. */
  const DefaultLanguages: seq<string> := ["ja", "en"]

  /** One caption entry; only `text` is written to disk. */
  datatype Entry = Entry(text: string, start: real, duration: real)

  /** What the external transcript service does for one request. */
  datatype FetchOutcome = Fetched(entries: seq<Entry>) | FetchFailed(message: string)

  /** One file write: the path opened for writing and the complete content written. */
  datatype FileWrite = FileWrite(path: string, content: string)

  /**
   * `extract_video_id`: the text after the first `v=` up to the next `v=`,
   * else the text after the first `youtu.be/` up to the next one, cut to
   * 11 characters; absent when neither marker occurs.
   */
  function ExtractVideoId(url: string): (r: Option<string>)
    ensures r.None? <==> !Contains(url, WatchMarker) && !Contains(url, ShortMarker)
    ensures Contains(url, WatchMarker) ==> r == Some(Take(Segment(url, WatchMarker), IdLength))
    ensures !Contains(url, WatchMarker) && Contains(url, ShortMarker) ==>
              r == Some(Take(Segment(url, ShortMarker), IdLength))
    ensures r.Some? ==> |r.value| <= IdLength
  {
    if Contains(url, WatchMarker) then
      SplitSecond(url, WatchMarker);
      Some(Take(Split(url, WatchMarker)[1], IdLength))
    else if Contains(url, ShortMarker) then
      SplitSecond(url, ShortMarker);
      Some(Take(Split(url, ShortMarker)[1], IdLength))
    else
      None
  }

  /**
   * A watch URL whose 11-character id holds no `=` and is not followed by
   * `=` yields exactly that id, whatever comes after it.
   */
  lemma WatchUrlId(prefix: string, id: string, rest: string)
    requires !Contains(prefix, WatchMarker)
    requires |id| == IdLength && '=' !in id
    requires rest == [] || rest[0] != '='
    ensures ExtractVideoId(prefix + WatchMarker + id + rest) == Some(id)
  {
    var url := prefix + WatchMarker + id + rest;
    var p := |prefix|;
    forall j: nat | j < p ensures !OccursAt(url, WatchMarker, j) {
      if j + 2 <= p {
        assert url[j..j + 2] == prefix[j..j + 2];
        assert !OccursAt(prefix, WatchMarker, j);
      } else if j + 2 <= |url| {
        assert url[j..j + 2][1] == url[p] == 'v';
        assert url[j..j + 2] != WatchMarker;
      }
    }
    assert url[p..p + 2] == WatchMarker;
    FindFromIs(url, WatchMarker, 0, p);
    forall j: nat | p + 2 <= j < p + 2 + IdLength ensures !OccursAt(url, WatchMarker, j) {
      if j + 2 <= |url| {
        if j + 1 < p + 2 + IdLength {
          assert url[j + 1] == id[j + 1 - (p + 2)];
        } else {
          assert url[j + 1] == rest[0];
        }
        assert url[j..j + 2][1] == url[j + 1];
      }
    }
    var e := NextOrEnd(url, WatchMarker, p + 2);
    assert e >= p + 2 + IdLength;
    assert Segment(url, WatchMarker) == url[p + 2..e];
    assert url[p + 2..e][..IdLength] == url[p + 2..p + 2 + IdLength] == id;
  }

  /**
   * A short URL without any `v=` yields exactly its 11-character id when
   * no `youtu.be/` comes before the marker or after it.
   */
  lemma ShortUrlId(prefix: string, id: string, rest: string)
    requires !Contains(prefix + ShortMarker + id + rest, WatchMarker)
    requires !Contains(prefix, ShortMarker)
    requires |id| == IdLength && !Contains(id + rest, ShortMarker)
    ensures ExtractVideoId(prefix + ShortMarker + id + rest) == Some(id)
  {
    var url := prefix + ShortMarker + id + rest;
    var p := |prefix|;
    var d := p + |ShortMarker|;
    ShortMarkerPrefix(prefix, id + rest);
    assert url == prefix + ShortMarker + (id + rest);
    assert url[d..] == id + rest;
    FindFromSuffix(url, ShortMarker, d);
    assert NextOrEnd(url, ShortMarker, d) == |url|;
    assert Segment(url, ShortMarker) == id + rest;
    assert (id + rest)[..IdLength] == id;
  }

  /** The first `youtu.be/` of `prefix + "youtu.be/" + tail` is the one after `prefix` when `prefix` holds none. */
  lemma ShortMarkerPrefix(prefix: string, tail: string)
    requires !Contains(prefix, ShortMarker)
    ensures FindFrom(prefix + ShortMarker + tail, ShortMarker, 0) == Some(|prefix|)
  {
    var url := prefix + ShortMarker + tail;
    var p := |prefix|;
    forall k | 0 <= k < 8 ensures ShortMarker[k] != '/' {
    }
    forall j: nat | j < p ensures !OccursAt(url, ShortMarker, j) {
      if j + 9 <= p {
        assert url[j..j + 9] == prefix[j..j + 9];
        assert !OccursAt(prefix, ShortMarker, j);
      } else {
        assert url[j + 8] == ShortMarker[j + 8 - p];
        assert url[j..j + 9][8] == url[j + 8];
      }
    }
    assert url[p..p + 9] == ShortMarker;
    FindFromIs(url, ShortMarker, 0, p);
  }

  /** Python truthiness of the resolved id: present and non-empty. */
  predicate IsValidId(id: Option<string>) {
    id.Some? && id.value != []
  }

  /** Whether an id-or-URL argument is treated as a URL and passed through extraction. */
  predicate LooksLikeUrl(arg: string) {
    Contains(arg, LongDomain) || Contains(arg, ShortDomain)
  }

  /**
   * The id resolution shared by `get_transcript` and `save_transcript`:
   * a URL-looking argument goes through `ExtractVideoId`, anything else is
   * used as it is.
   */
  function ResolveId(arg: string): (r: Option<string>)
    ensures !LooksLikeUrl(arg) ==> r == Some(arg)
    ensures LooksLikeUrl(arg) ==> r == ExtractVideoId(arg)
    ensures LooksLikeUrl(arg) && r.Some? ==> |r.value| <= IdLength
  {
    if LooksLikeUrl(arg) then ExtractVideoId(arg) else Some(arg)
  }

  /**
   * An argument containing `youtu.be` but neither `v=` nor `youtu.be/`
   * resolves to nothing.
   */
  lemma ShortDomainWithoutMarker(arg: string)
    requires Contains(arg, ShortDomain)
    requires !Contains(arg, WatchMarker) && !Contains(arg, ShortMarker)
    ensures ResolveId(arg).None? && !IsValidId(ResolveId(arg))
  {
  }

  /**
   * The id `get_transcript` passes to the transcript service, or `None`
   * when it reports an invalid id and makes no request.
   */
  function FetchRequest(arg: string): (r: Option<string>)
    ensures r.Some? <==> IsValidId(ResolveId(arg))
    ensures r.Some? ==> r == ResolveId(arg) && r.value != []
  {
    if IsValidId(ResolveId(arg)) then ResolveId(arg) else None
  }

  /**
   * `get_transcript`: the service's entries for the resolved id, or `None`
   * for an invalid id (without consulting the service) or a failed fetch.
   */
  function GetTranscript(arg: string, languages: seq<string>,
                         service: (string, seq<string>) -> FetchOutcome): (r: Option<seq<Entry>>)
    ensures FetchRequest(arg).None? ==> r.None?
    ensures FetchRequest(arg).Some? ==>
              match service(FetchRequest(arg).value, languages)
              case Fetched(es) => r == Some(es)
              case FetchFailed(_) => r.None?
  {
    match FetchRequest(arg)
    case None => None
    case Some(id) =>
      match service(id, languages)
      case Fetched(es) => Some(es)
      case FetchFailed(_) => None
  }

  /** An invalid id gives the same `None` whatever the transcript service would do. */
  lemma InvalidIdSkipsService(arg: string, languages: seq<string>,
                              s1: (string, seq<string>) -> FetchOutcome,
                              s2: (string, seq<string>) -> FetchOutcome)
    requires !IsValidId(ResolveId(arg))
    ensures GetTranscript(arg, languages, s1) == GetTranscript(arg, languages, s2) == None
  {
  }

  /**
   * The file content `save_transcript` writes: each entry's text followed by
   * a newline. It is empty exactly for no entries, and otherwise ends with
   * the newline of the last line.
   */
  function Serialise(entries: seq<Entry>): (content: string)
    ensures entries == [] <==> content == ""
    ensures entries != [] ==> content[|content| - 1] == '\n'
    ensures |content| >= |entries|
    decreases |entries|
  {
    if entries == [] then "" else entries[0].text + "\n" + Serialise(entries[1..])
  }

  /** The text fields, in order. */
  function Texts(entries: seq<Entry>): (ts: seq<string>)
    ensures |ts| == |entries|
    ensures forall i :: 0 <= i < |entries| ==> ts[i] == entries[i].text
    decreases |entries|
  {
    if entries == [] then [] else [entries[0].text] + Texts(entries[1..])
  }

  /** Writing one more entry appends its line to the content. */
  lemma {:induction false} SerialiseAppend(entries: seq<Entry>, e: Entry)
    ensures Serialise(entries + [e]) == Serialise(entries) + e.text + "\n"
    decreases |entries|
  {
    if entries == [] {
      assert [e][1..] == [];
    } else {
      assert (entries + [e])[1..] == entries[1..] + [e];
      SerialiseAppend(entries[1..], e);
    }
  }

  /** Python `content.split("\n")` with the last (empty) piece dropped: reading the file back line by line. */
  function ReadLines(content: string): (lines: seq<string>)
    ensures lines == Split(content, "\n") || lines + [""] == Split(content, "\n")
  {
    var pieces := Split(content, "\n");
    if pieces[|pieces| - 1] == "" then pieces[..|pieces| - 1] else pieces
  }

  /** Splitting the content on newlines gives the texts followed by one empty piece. */
  lemma {:induction false} SplitSerialise(entries: seq<Entry>)
    requires forall i :: 0 <= i < |entries| ==> '\n' !in entries[i].text
    ensures Split(Serialise(entries), "\n") == Texts(entries) + [""]
    decreases |entries|
  {
    if entries != [] {
      var t := entries[0].text;
      var rest := Serialise(entries[1..]);
      assert Serialise(entries) == t + "\n" + rest;
      assert '\n' !in t;
      SplitLine(t, rest);
      SplitSerialise(entries[1..]);
      assert Texts(entries) == [t] + Texts(entries[1..]);
    }
  }

  /** Splitting a newline-free line, a newline and the rest gives the line, then the pieces of the rest. */
  lemma SplitLine(t: string, rest: string)
    requires '\n' !in t
    ensures Split(t + "\n" + rest, "\n") == [t] + Split(rest, "\n")
  {
    var s := t + "\n" + rest;
    FirstNewline(t, rest);
    LineParts(t, rest);
    SplitUnfold(s, "\n");
  }

  /** The first newline of `t + "\n" + rest` is the one after `t` when `t` holds none. */
  lemma FirstNewline(t: string, rest: string)
    requires '\n' !in t
    ensures FindFrom(t + "\n" + rest, "\n", 0) == Some(|t|)
  {
    var s := t + "\n" + rest;
    forall j: nat | j < |t| ensures !OccursAt(s, "\n", j) {
      assert s[j..j + 1][0] == t[j];
    }
    assert s[|t|..|t| + 1] == "\n";
    FindFromIs(s, "\n", 0, |t|);
  }

  /** The text before and after the newline that follows `t`. */
  lemma LineParts(t: string, rest: string)
    ensures (t + "\n" + rest)[..|t|] == t
    ensures (t + "\n" + rest)[|t| + 1..] == rest
  {
  }

  /** Round trip: the saved file, read back line by line, gives the texts in order when none holds a newline. */
  lemma SaveThenReadBack(entries: seq<Entry>)
    requires forall i :: 0 <= i < |entries| ==> '\n' !in entries[i].text
    ensures ReadLines(Serialise(entries)) == Texts(entries)
  {
    SplitSerialise(entries);
    assert (Texts(entries) + [""])[..|entries|] == Texts(entries);
  }

  /** The file a transcript for `name` goes to: `<dir>/<name>.txt`. */
  function TranscriptPath(transcriptsDir: string, name: string): (p: string)
    ensures (name == [] || name[0] != '/') && transcriptsDir != [] && transcriptsDir[|transcriptsDir| - 1] != '/' ==>
              p == transcriptsDir + "/" + name + ".txt"
  {
    PathJoin(transcriptsDir, name + ".txt")
  }

  /**
   * `save_transcript`: refuses an absent or empty transcript and an
   * unresolvable filename before any file work; otherwise writes the
   * serialised texts to `<dir>/<id>.txt` and reports whether the write
   * succeeded.
   */
  method SaveTranscript(transcript: Option<seq<Entry>>, filename: string, transcriptsDir: string,
                        canWrite: (string, string) -> bool)
    returns (ok: bool, written: Option<FileWrite>)
    ensures (transcript.None? || transcript.value == []) ==> !ok && written.None?
    ensures transcript.Some? && transcript.value != [] && !IsValidId(ResolveId(filename)) ==>
              !ok && written.None?
    ensures transcript.Some? && transcript.value != [] && IsValidId(ResolveId(filename)) ==>
              written == Some(FileWrite(TranscriptPath(transcriptsDir, ResolveId(filename).value),
                                        Serialise(transcript.value)))
    ensures written.Some? ==> ok == canWrite(written.value.path, written.value.content)
  {
    if transcript.None? || transcript.value == [] {
      return false, None;
    }
    var name := ResolveId(filename);
    if !IsValidId(name) {
      return false, None;
    }
    var path := TranscriptPath(transcriptsDir, name.value);
    var entries := transcript.value;
    var content := "";
    var i := 0;
    while i < |entries|
      invariant 0 <= i <= |entries|
      invariant content == Serialise(entries[..i])
    {
      SerialiseAppend(entries[..i], entries[i]);
      assert entries[..i + 1] == entries[..i] + [entries[i]];
      content := content + entries[i].text + "\n";
      i := i + 1;
    }
    assert entries[..i] == entries;
    written := Some(FileWrite(path, content));
    ok := canWrite(path, content);
  }

  /** How `main` ended: it returned a value, or the `TypeError` of a `None` filename escaped it. */
  datatype MainOutcome = Returned(transcript: Option<seq<Entry>>) | RaisedTypeError

  /**
   * `main` as written: after a successful fetch it names the file with
   * `ExtractVideoId(url)`, which is `None` for a plain id, and
   * `save_transcript` then raises on `"youtube.com" in None`.
   */
  method FetchAndSaveAsWritten(url: string, service: (string, seq<string>) -> FetchOutcome,
                       transcriptsDir: string, canWrite: (string, string) -> bool)
    returns (outcome: MainOutcome, written: Option<FileWrite>)
    ensures var t := GetTranscript(url, DefaultLanguages, service);
            (t.None? || t.value == []) ==> outcome == Returned(None) && written.None?
    ensures var t := GetTranscript(url, DefaultLanguages, service);
            t.Some? && t.value != [] && ExtractVideoId(url).None? ==> outcome == RaisedTypeError && written.None?
    ensures var t := GetTranscript(url, DefaultLanguages, service);
            t.Some? && t.value != [] && ExtractVideoId(url).Some? ==>
              written == (var name := ResolveId(ExtractVideoId(url).value);
                          if IsValidId(name) then Some(FileWrite(TranscriptPath(transcriptsDir, name.value), Serialise(t.value)))
                          else None)
    ensures var t := GetTranscript(url, DefaultLanguages, service);
            t.Some? && t.value != [] && ExtractVideoId(url).Some? ==>
              outcome == Returned(if written.Some? && canWrite(written.value.path, written.value.content)
                                  then t else None)
  {
    var transcript := GetTranscript(url, DefaultLanguages, service);
    if transcript.None? || transcript.value == [] {
      return Returned(None), None;
    }
    var videoId := ExtractVideoId(url);
    if videoId.None? {
      return RaisedTypeError, None;
    }
    var ok;
    ok, written := SaveTranscript(transcript, videoId.value, transcriptsDir, canWrite);
    outcome := if ok then Returned(transcript) else Returned(None);
  }

  /**
   * An id with no `=` and no `y` (such as `sY7L5cfCWno`) is fetched by
   * `get_transcript` as it is, yet `ExtractVideoId` gives `main` no
   * filename for it.
   */
  lemma PlainIdHasNoFilename(id: string)
    requires id != [] && '=' !in id && 'y' !in id
    ensures FetchRequest(id) == Some(id)
    ensures ExtractVideoId(id).None?
  {
    MissingCharNotContained(id, LongDomain, 0);
    MissingCharNotContained(id, ShortDomain, 0);
    MissingCharNotContained(id, WatchMarker, 1);
    MissingCharNotContained(id, ShortMarker, 0);
  }

  /** The video id in the script's own example URL is such an id. */
  lemma ExampleIdHasNoFilename()
    ensures FetchRequest("sY7L5cfCWno") == Some("sY7L5cfCWno")
    ensures ExtractVideoId("sY7L5cfCWno").None?
  {
    PlainIdHasNoFilename("sY7L5cfCWno");
  }

  /**
   * `main` as intended: the transcript is returned only when both the
   * fetch and the save succeed, and the file is named after the very id
   * that was fetched.
   */
  method FetchAndSave(url: string, service: (string, seq<string>) -> FetchOutcome,
              transcriptsDir: string, canWrite: (string, string) -> bool)
    returns (result: Option<seq<Entry>>, written: Option<FileWrite>)
    ensures var t := GetTranscript(url, DefaultLanguages, service);
            result.Some? <==> t.Some? && t.value != [] && written.Some? &&
                              canWrite(written.value.path, written.value.content)
    ensures result.Some? ==> result == GetTranscript(url, DefaultLanguages, service)
    ensures var t := GetTranscript(url, DefaultLanguages, service);
            t.Some? && t.value != [] <==> written.Some?
    ensures written.Some? ==>
              written.value == FileWrite(TranscriptPath(transcriptsDir, FetchRequest(url).value),
                                         Serialise(GetTranscript(url, DefaultLanguages, service).value))
  {
    var transcript := GetTranscript(url, DefaultLanguages, service);
    if transcript.None? || transcript.value == [] {
      return None, None;
    }
    var ok;
    ok, written := SaveTranscript(transcript, url, transcriptsDir, canWrite);
    result := if ok then transcript else None;
  }
}
