# Language-learning assistant backend, modelled in Dafny

This project models the sequential logic of three backend scripts of a
language-learning assistant, and proves properties of it:

- **Transcript downloader** (`backend/get_transcript.py`). It extracts a video id from a
  watch URL (`...v=<id>...`) or a short URL (`...youtu.be/<id>...`). It resolves a
  download argument that may be an id or a URL. It fetches captions from an external
  transcript service. It saves the caption texts, one newline-terminated line per entry,
  to `<transcripts dir>/<id>.txt`. `main` chains the fetch and the save.
- **Corpus indexer** (`backend/rag.py`). It scans the `transcripts` directory listing and
  keeps the `.txt` entries whose read succeeds. It collects three parallel lists: contents,
  `{"source": name}` metadata and `doc<i>` ids, where `i` is the position in the whole
  listing. It then makes exactly one insertion into the vector collection. That insertion
  carries the collected lists, or two fixed example documents when nothing was collected.
- **Chat wrapper** (`backend/chat.py`). A `BedrockChat` object records whether its API
  client could be created and which model it uses. `generate_response` builds a one-turn
  request with a default inference configuration. It reads the reply text out of the
  response shape, and maps exception text to a user-facing reply in a fixed priority order.

Python's string operations are modelled exactly as the scripts use them. They live in
module `Strings`:

- `in` is `Contains`, through the first-occurrence search `FindFrom`.
- `str.split` with a non-empty separator is `Split`.
- `s[:n]` is `Take`.
- `str.endswith` is `EndsWith`.
- `str(i)` for a natural number is `NatToString`.

POSIX `os.path.join` (`posixpath.join`) for two components is `Paths.PathJoin`.

External collaborators are parameters:

- The transcript service is a function from (video id, language list) to `Fetched(entries)`
  or `FetchFailed`.
- A file write is a function from (path, content) to success. `false` stands for any
  exception the write raises.
- A file read is a function from path to `Read(content)` or `ReadFailed`.
- The directory listing is `Option<seq<string>>`, with `None` for a missing directory.
- The chat API's `converse` call is a function from the request to `Responded(response)`
  or `Raised(text)`.
- Whether creating the API client raised is a constructor argument.

"The service is not called" is stated two ways. The request function (`FetchRequest`,
`RequestFor`) returns `None`. And lemmas show the result is the same for every service.

A `...v=<11 characters>...` URL does not always yield those 11 characters:
`url.split("v=")[1][:11]` also stops at a second `v=`. So `Transcript.WatchUrlId` states
the property only for ids with no `=` that are not followed by `=`.

A `...youtu.be/<11 characters>...` URL yields those characters only when the URL holds no
`v=` anywhere: `extract_video_id` tests `"v=" in url` first, so a short URL that contains
`v=` takes the watch branch. `Transcript.ShortUrlId` states the short-URL property under
that condition, and with no other `youtu.be/` before the marker or after it.

## Model

| member | source | states |
|---|---|---|
| `Strings.FindFrom` | backend/get_transcript.py:20 | The result is the first position at or after `start` where the marker occurs; `None` means no occurrence at or after `start`. |
| `Strings.Contains` | backend/get_transcript.py:20 | Python `m in s` holds exactly when `m` occurs at some position of `s`. |
| `Strings.Split` | backend/get_transcript.py:21 | `s.split(m)` for a non-empty separator: the text before the first occurrence, then the split of the rest; always at least one piece. |
| `Strings.JoinSplit` | backend/get_transcript.py:21 | Joining the pieces of `s.split(m)` with `m` gives back `s`. |
| `Strings.SplitPiecesFree` | backend/get_transcript.py:21 | No piece of `s.split(m)` contains `m`. |
| `Strings.SplitCount` | backend/get_transcript.py:21 | `s.split(m)` has a piece 1 exactly when `m` occurs in `s`. |
| `Strings.SplitSecond` | backend/get_transcript.py:21 | When `m` occurs, `s.split(m)[1]` is the text between the first occurrence and the next one, or the end of `s`. |
| `Strings.Take` | backend/get_transcript.py:21 | `s[:n]` is a prefix of `s` of length at most `n`; it has exactly `n` characters when `s` has at least `n`, and is all of `s` otherwise. |
| `Strings.EndsWith` | backend/rag.py:21 | `s.endswith(suffix)`: the last `|suffix|` characters of `s` are `suffix`. |
| `Strings.EndsWithPointwise` | backend/rag.py:21 | `s` ends with `suffix` exactly when `suffix` fits and matches the end of `s` character by character. |
| `Strings.NatToString` | backend/rag.py:28 | `str(i)` is non-empty, ends with the last decimal digit of `i`, and is one character long exactly when `i < 10`. |
| `Strings.NatToStringInjective` | backend/rag.py:28 | Different numbers have different decimal spellings. |
| `Paths.PathJoin` | backend/get_transcript.py:85 | An absolute second component replaces the directory, as `os.path.join` does. |
| `Paths.PathJoinRelative` | backend/get_transcript.py:85 | A relative name is appended to the directory, with one `/` between them unless the directory is empty or already ends with `/`. |
| `Transcript.ExtractVideoId` | backend/get_transcript.py:20-24 | The result is absent exactly when neither `v=` nor `youtu.be/` occurs. `v=` takes priority; the id is the segment after the first marker occurrence up to the next one, cut to 11 characters; it never exceeds 11 characters. |
| `Transcript.WatchUrlId` | backend/get_transcript.py:20-21 | `prefix + "v=" + id + rest` yields exactly `id`, for an 11-character `id` with no `=`, a `prefix` without `v=` and a `rest` not starting with `=`. |
| `Transcript.IsValidId` | backend/get_transcript.py:40 | Python truthiness of the resolved id: present and non-empty (also the test at line 71). |
| `Transcript.LooksLikeUrl` | backend/get_transcript.py:37 | The argument contains `youtube.com` or `youtu.be` (also the test at line 68). |
| `Transcript.ResolveId` | backend/get_transcript.py:37-38 | An argument containing `youtube.com` or `youtu.be` goes through extraction, which then gives at most 11 characters; any other argument is used unchanged. |
| `Transcript.ShortUrlId` | backend/get_transcript.py:20-24 | `prefix + "youtu.be/" + id + rest` yields exactly `id`, for an 11-character `id`, when the URL has no `v=`, `prefix` has no `youtu.be/` and `id + rest` has none either. |
| `Transcript.ShortDomainWithoutMarker` | backend/get_transcript.py:68-69 | An argument containing `youtu.be` but neither `v=` nor `youtu.be/` resolves to no id, which is invalid. |
| `Transcript.FetchRequest` | backend/get_transcript.py:37-47 | The service is asked for an id exactly when the resolved id is present and non-empty, and then for that id. |
| `Transcript.GetTranscript` | backend/get_transcript.py:26-50 | The result is `None` without a request for an invalid id, the entries for a successful fetch, and `None` for a failed one. |
| `Transcript.InvalidIdSkipsService` | backend/get_transcript.py:40-42 | For an invalid id the result is `None`, whatever the service would do. |
| `Transcript.Serialise` | backend/get_transcript.py:89-90 | The content written: each entry's text followed by `"\n"`, in order. It is empty exactly for no entries, otherwise ends with a newline, and has at least one character per entry. |
| `Transcript.Texts` | backend/get_transcript.py:89-90 | The text fields of the entries, one per entry, in order. |
| `Transcript.SerialiseAppend` | backend/get_transcript.py:89-90 | Writing one more entry appends `text + "\n"` to the content. |
| `Transcript.ReadLines` | backend/get_transcript.py:88-90 | Reading a file back line by line: the pieces of the split on `"\n"`, minus the last one when it is empty. |
| `Transcript.SplitSerialise` | backend/get_transcript.py:88-90 | If no text contains a newline, splitting the content on `"\n"` gives the texts followed by one empty piece. |
| `Transcript.SaveThenReadBack` | backend/get_transcript.py:88-90 | If no text contains a newline, reading the saved content back line by line gives the texts in order. |
| `Transcript.TranscriptPath` | backend/get_transcript.py:85 | The file for `name` is `<dir>/<name>.txt`; for a directory not ending in `/` and a name not starting with `/` it is exactly `dir + "/" + name + ".txt"`. |
| `Transcript.SaveTranscript` | backend/get_transcript.py:52-95 | An absent or empty transcript and an invalid resolved filename give `False` with no write. Otherwise exactly the serialised texts are written to `<dir>/<id>.txt`, and the result is whether the write succeeded. |
| `Transcript.FetchAndSaveAsWritten` | backend/get_transcript.py:97-119 | A failed or empty fetch returns `None` with no write. After a successful fetch, a URL with no extractable id raises `TypeError`. Otherwise the extracted id is resolved again, as `save_transcript` does: a valid one writes the serialised texts to `<dir>/<id>.txt`, an invalid one writes nothing, and the transcript is returned exactly when that write succeeded. |
| `Transcript.PlainIdHasNoFilename` | backend/get_transcript.py:104-107 | A non-empty id with no `=` and no `y` is fetched as it is, yet extraction gives `main` no filename for it. |
| `Transcript.ExampleIdHasNoFilename` | backend/get_transcript.py:122 | The id in the script's own example URL is such an id. |
| `Transcript.FetchAndSave` | backend/get_transcript.py:97-119 | The transcript is returned exactly when the fetch gave a non-empty transcript and its write succeeded. A write happens exactly after such a fetch; it goes to `<dir>/<fetched id>.txt` and holds the serialised texts. |
| `Indexer.SourceMeta` | backend/rag.py:27 | The metadata has the single key `source`, mapped to the file name. |
| `Indexer.DocId` | backend/rag.py:28 | The id is `"doc"` followed by the decimal spelling of the listing position. |
| `Indexer.DocIdInjective` | backend/rag.py:28 | Different listing positions give different `doc<i>` ids. |
| `Indexer.DocPath` | backend/rag.py:22 | The path opened for an entry is `os.path.join("transcripts", name)`. |
| `Indexer.Kept` | backend/rag.py:21-25 | A listing entry yields a record when its name ends with `.txt` and reading it succeeds. |
| `Indexer.Contribution` | backend/rag.py:21-28 | An entry contributes at most one record, and one exactly when it is kept; that record carries the entry's position and name and the content its read returned. |
| `Indexer.Records` | backend/rag.py:20-28 | The records collected after the first `n` entries, in listing order; at most one per entry. |
| `Indexer.RecordsSound` | backend/rag.py:20-28 | Every record comes from a listing entry ending in `.txt` whose read succeeded, carries that entry's name, and holds the content that read returned. |
| `Indexer.RecordsComplete` | backend/rag.py:20-28 | Every `.txt` entry whose read succeeds has a record. |
| `Indexer.RecordsIncreasing` | backend/rag.py:20-28 | Records follow the listing order: their listing positions strictly increase (and may skip). |
| `Indexer.IdsDistinct` | backend/rag.py:28 | The collected ids are pairwise distinct. |
| `Indexer.WithoutPath` | backend/rag.py:23-31 | Dropping the records whose file is at one path never adds records. |
| `Indexer.WithoutPathMembers` | backend/rag.py:23-31 | A record survives the drop exactly when it was there and its file is not at that path. |
| `Indexer.WithoutPathAppend` | backend/rag.py:23-31 | Dropping the records at one path distributes over appending one more record. |
| `Indexer.FailedReadSkipsOnlyItself` | backend/rag.py:23-31 | A read that fails at one path drops exactly that path's records; all other records stay, in the same order. |
| `Indexer.ScanDirectory` | backend/rag.py:12-33 | The three lists have equal length and hold, position by position, each kept entry's content, `{"source": name}` and `doc<position>`. A missing directory gives three empty lists. |
| `Indexer.ChooseBatch` | backend/rag.py:36-50 | Non-empty collected lists are inserted as they are; otherwise the two example documents of `FallbackBatch` are (contents `this is textfile1` and `This is textfile2`, sources `textfile1` and `textfile2`, ids `doc1` and `doc2`). The inserted lists are always parallel and non-empty. |
| `Indexer.BuildIndex` | backend/rag.py:12-50 | One insertion: the fallback documents for a missing directory or when nothing was kept, and otherwise one document per kept entry, in listing order. |
| `Indexer.NoRecordsIffNoneKept` | backend/rag.py:36-43 | The fallback is taken exactly when no listing entry is a readable `.txt` file. |
| `Chat.Classify` | backend/chat.py:53-62 | The class is one whose marker occurs in the error text, and no marker earlier in the test order occurs; `OtherError` only when no marker occurs. |
| `Chat.FirstMarkerWins` | backend/chat.py:53-60 | A marker that occurs, with no earlier marker occurring, decides the class, even when later markers occur too. |
| `Chat.KindReply` | backend/chat.py:53-62 | The reply of each class: access denied, validation and throttling each get their own fixed text, not found gets the reply naming the model, and an unrecognised error gets `"Sorry, I encountered an error: "` followed by the text. |
| `Chat.ErrorReply` | backend/chat.py:53-62 | The first marker that occurs in the text, tested in the order `AccessDeniedException`, `ResourceNotFoundException`, `ValidationException`, `ThrottlingException`, picks the reply: access denied, not found naming the model, invalid request, or throttled. Text with none of the markers gets `"Sorry, I encountered an error: "` followed by the text. |
| `Chat.KindReplyMentions` | backend/chat.py:56-62 | The not-found reply contains the model id, and the generic reply ends with the error text. |
| `Chat.NoMarkerInitial` | backend/chat.py:53-62 | Text lacking the initials of all four markers is unrecognised. |
| `Chat.ContentErrorsAreGeneric` | backend/chat.py:44-62 | The `IndexError` of an empty content list and the `KeyError` of a block without text get the generic reply. |
| `Chat.ContentOf` | backend/chat.py:43 | The content is present exactly when `output`, `output.message` and `output.message.content` all are, and is then that content. |
| `Chat.ReplyFor` | backend/chat.py:37-62 | The first content block's text when `output.message.content` is present and non-empty. The unexpected-format reply when a key is missing. The error reply for a raised exception, including one raised while indexing the content. |
| `Chat.BedrockChat.constructor` | backend/chat.py:14-22 | `initialized` is whether the client was created, and then the model id is stored; the model id defaults to `amazon.nova-micro-v1:0`. |
| `Chat.BedrockChat.RequestFor` | backend/chat.py:26-42 | No request when not initialised. Otherwise the request goes to the stored model, with exactly one `user` message whose one content item is the input text, and with the given inference configuration or `{"temperature": 0.7}`. |
| `Chat.BedrockChat.GenerateResponse` | backend/chat.py:24-62 | The not-connected reply when not initialised; otherwise the reply for what the call does with the request. |
| `Chat.BedrockChat.NotInitialisedSkipsCall` | backend/chat.py:26-27 | Without a client, the reply is the not-connected reply whatever the call would do. |

## Findings

| source | as written | input that shows it | evidently intended | confidence | as-written member | corrected member |
|---|---|---|---|---|---|---|
| backend/get_transcript.py:106-107 | `main` names the file with `extract_video_id(video_url)` and passes the result to `save_transcript`. | `main("sY7L5cfCWno")` with a service that returns captions. `get_transcript` accepts the plain id, but extraction gives `None`. `"youtube.com" in None` at line 68 then raises `TypeError` outside any `try`. | Name the file after the id `get_transcript` resolved, by passing `video_url`, which `save_transcript` resolves the same way. | high; not executed | `Transcript.FetchAndSaveAsWritten`, `Transcript.PlainIdHasNoFilename` | `Transcript.FetchAndSave` |

## Left out

- `YouTubeTranscriptApi.get_transcript`, the boto3 client and its `converse` call: external network services. They are parameters, as above.
- ChromaDB: client and collection creation, embedding, and the similarity query at `backend/rag.py:53-58`. This is a foreign library. Only the arguments of the one `collection.add` call are modelled.
- The file system: the script-relative directory computation, `os.makedirs`, `os.path.exists`, `os.listdir`, `open`. The transcripts directory is a parameter of the save. The listing and reads are parameters of the scan. Two exceptions raised outside any `try` are not modelled. One is from `os.makedirs` in the downloader. The other is from `os.listdir` at `backend/rag.py:20`, when `transcripts` exists but is not a readable directory; the script then stops before any `collection.add`, so `Indexer.BuildIndex`'s single insertion has no counterpart. Windows path joining (`ntpath`, with `\` and drive letters) is not modelled either.
- `Transcript.SaveTranscript`: models the write as one call with the whole content. A write that fails partway, leaving a truncated file, is only modelled as `False`. Text-mode newline translation on non-POSIX systems is not modelled.
- `Transcript.Entry`: every caption entry has a string `text`. Entries without a `text` key (a `KeyError` caught by the `try`) and non-string `text` values formatted with `str` are not modelled.
- `Chat.BedrockChat`: the `bedrock_client` field is not modelled. It is a foreign client object, and the `converse` parameter stands for it. Inference configuration values are reals; other value types are not modelled.
- `Chat.ReplyFor`: a response that is not a dictionary, or whose content is not a list, is not modelled.
- `print`, `st.error`, `st.warning`, the `print_transcript` loop of `main`, the `__main__` demo blocks and the interactive `input()` loop of the chat wrapper: console and UI output.
