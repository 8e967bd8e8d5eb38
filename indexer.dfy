/**
 * The corpus indexer: one pass over a directory listing that collects the
 * `.txt` files' contents, `{"source": name}` metadata and `doc<i>` ids into
 * three parallel lists, followed by exactly one batch insertion into the
 * vector collection (the collected lists, or two fixed example documents
 * when nothing was collected).
 *
 * The directory listing is a parameter (`None` when the directory does not
 * exist) and a file read is a function from path to content or failure.
 */
module Indexer {
  import opened Wrappers
  import opened Strings
  import opened Paths

  /** The directory the indexer scans, relative to the working directory. */
  const DocsPath := "transcripts"
  /** Only listing entries with this suffix are read. */
  const TextSuffix := ".txt"

  /** Opening and reading a file either gives its whole content or raises. */
  datatype ReadOutcome = Read(content: string) | ReadFailed

  /** A metadata mapping as handed to the collection. */
  type Metadata = map<string, string>

  /** The metadata of a document read from file `name`. */
  function SourceMeta(name: string): (md: Metadata)
    ensures md.Keys == {"source"} && md["source"] == name
  {
    map["source" := name]
  }

  /** The id of the document at position `i` of the listing: `"doc" + str(i)`. */
  function DocId(i: nat): (id: string)
    ensures |id| >= 4 && id[..3] == "doc" && id[3..] == NatToString(i)
  {
    "doc" + NatToString(i)
  }

  /** Different listing positions give different ids. */
  lemma DocIdInjective(i: nat, j: nat)
    requires DocId(i) == DocId(j)
    ensures i == j
  {
    assert DocId(i)[3..] == NatToString(i);
    assert DocId(j)[3..] == NatToString(j);
    NatToStringInjective(i, j);
  }

  /** A collected document: its content, the file it came from and that file's position in the listing. */
  datatype Record = Record(content: string, source: string, index: nat)

  /** The path the indexer opens for listing entry `name`. */
  function DocPath(name: string): string {
    PathJoin(DocsPath, name)
  }

  /** Entry `i` of the listing yields a record: its name ends in `.txt` and reading it succeeds. */
  predicate Kept(listing: seq<string>, read: string -> ReadOutcome, i: nat)
    requires i < |listing|
  {
    EndsWith(listing[i], TextSuffix) && read(DocPath(listing[i])).Read?
  }

  /** What listing entry `i` contributes: its record when kept, nothing otherwise. */
  function Contribution(listing: seq<string>, read: string -> ReadOutcome, i: nat): (c: seq<Record>)
    requires i < |listing|
    ensures |c| <= 1 && (c != [] <==> Kept(listing, read, i))
    ensures c != [] ==> c[0].index == i && c[0].source == listing[i] &&
                        read(DocPath(listing[i])) == Read(c[0].content)
  {
    if Kept(listing, read, i) then [Record(read(DocPath(listing[i])).content, listing[i], i)] else []
  }

  /** The records the scan has collected after the first `n` listing entries. */
  function Records(listing: seq<string>, read: string -> ReadOutcome, n: nat): (rs: seq<Record>)
    requires n <= |listing|
    ensures |rs| <= n
  {
    if n == 0 then [] else Records(listing, read, n - 1) + Contribution(listing, read, n - 1)
  }

  /**
   * Every record comes from a kept `.txt` entry before `n`, carries that
   * entry's name and the content its read returned.
   */
  lemma {:induction false} RecordsSound(listing: seq<string>, read: string -> ReadOutcome, n: nat)
    requires n <= |listing|
    ensures forall r :: r in Records(listing, read, n) ==>
              && r.index < n && r.source == listing[r.index]
              && EndsWith(r.source, TextSuffix)
              && Kept(listing, read, r.index)
              && read(DocPath(r.source)) == Read(r.content)
  {
    if n > 0 {
      RecordsSound(listing, read, n - 1);
    }
  }

  /** Every kept entry before `n` has a record. */
  lemma {:induction false} RecordsComplete(listing: seq<string>, read: string -> ReadOutcome, n: nat, i: nat)
    requires i < n <= |listing| && Kept(listing, read, i)
    ensures exists k :: 0 <= k < |Records(listing, read, n)| && Records(listing, read, n)[k].index == i
  {
    var prev := Records(listing, read, n - 1);
    var rs := Records(listing, read, n);
    assert rs == prev + Contribution(listing, read, n - 1);
    if i < n - 1 {
      RecordsComplete(listing, read, n - 1, i);
      var k :| 0 <= k < |prev| && prev[k].index == i;
      assert rs[k] == prev[k];
    } else {
      assert rs[|prev|].index == i;
    }
  }

  /** Records follow the listing order: their listing positions strictly increase, and stay below `n`. */
  lemma {:induction false} RecordsIncreasing(listing: seq<string>, read: string -> ReadOutcome, n: nat)
    requires n <= |listing|
    ensures forall k :: 0 <= k < |Records(listing, read, n)| ==> Records(listing, read, n)[k].index < n
    ensures forall k1, k2 :: 0 <= k1 < k2 < |Records(listing, read, n)| ==>
              Records(listing, read, n)[k1].index < Records(listing, read, n)[k2].index
  {
    if n > 0 {
      RecordsIncreasing(listing, read, n - 1);
    }
  }

  /** The ids handed to the collection are pairwise distinct. */
  lemma IdsDistinct(listing: seq<string>, read: string -> ReadOutcome)
    ensures var rs := Records(listing, read, |listing|);
            forall k1, k2 :: 0 <= k1 < |rs| && 0 <= k2 < |rs| && k1 != k2 ==>
              DocId(rs[k1].index) != DocId(rs[k2].index)
  {
    var rs := Records(listing, read, |listing|);
    RecordsIncreasing(listing, read, |listing|);
    forall k1, k2 | 0 <= k1 < |rs| && 0 <= k2 < |rs| && k1 != k2
      ensures DocId(rs[k1].index) != DocId(rs[k2].index)
    {
      if DocId(rs[k1].index) == DocId(rs[k2].index) {
        DocIdInjective(rs[k1].index, rs[k2].index);
      }
    }
  }

  /** The records whose file is not at path `p`. */
  function WithoutPath(rs: seq<Record>, p: string): (out: seq<Record>)
    ensures |out| <= |rs|
    decreases |rs|
  {
    if rs == [] then []
    else WithoutPath(rs[..|rs| - 1], p) + (if DocPath(rs[|rs| - 1].source) != p then [rs[|rs| - 1]] else [])
  }

  /** The filter keeps exactly the records whose file is not at `p`. */
  lemma {:induction false} WithoutPathMembers(rs: seq<Record>, p: string)
    ensures forall r :: r in WithoutPath(rs, p) <==> r in rs && DocPath(r.source) != p
    decreases |rs|
  {
    if rs != [] {
      WithoutPathMembers(rs[..|rs| - 1], p);
      assert rs == rs[..|rs| - 1] + [rs[|rs| - 1]];
    }
  }

  /**
   * A read that fails at one path removes that path's records and leaves
   * every other record, and their order, unchanged.
   */
  lemma {:induction false} FailedReadSkipsOnlyItself(listing: seq<string>, read: string -> ReadOutcome,
                                                   read': string -> ReadOutcome, p: string, n: nat)
    requires n <= |listing|
    requires forall q :: q != p ==> read'(q) == read(q)
    requires read'(p) == ReadFailed
    ensures Records(listing, read', n) == WithoutPath(Records(listing, read, n), p)
  {
    if n > 0 {
      FailedReadSkipsOnlyItself(listing, read, read', p, n - 1);
      var prev := Records(listing, read, n - 1);
      var c := Contribution(listing, read, n - 1);
      FailedReadContribution(listing, read, read', p, n - 1);
      WithoutPathAppend(prev, c, p);
      calc {
        Records(listing, read', n);
        Records(listing, read', n - 1) + Contribution(listing, read', n - 1);
        WithoutPath(prev, p) + WithoutPath(c, p);
        WithoutPath(prev + c, p);
        WithoutPath(Records(listing, read, n), p);
      }
    }
  }

  /** One entry's contribution under a read that fails at `p`: the original one, unless its file is at `p`. */
  lemma FailedReadContribution(listing: seq<string>, read: string -> ReadOutcome,
                               read': string -> ReadOutcome, p: string, i: nat)
    requires i < |listing|
    requires forall q :: q != p ==> read'(q) == read(q)
    requires read'(p) == ReadFailed
    ensures Contribution(listing, read', i) == WithoutPath(Contribution(listing, read, i), p)
  {
    var q := DocPath(listing[i]);
    if q != p {
      assert read'(q) == read(q);
    }
  }

  /** Filtering distributes over appending at most one record. */
  lemma {:induction false} WithoutPathAppend(rs: seq<Record>, tail: seq<Record>, p: string)
    requires |tail| <= 1
    ensures WithoutPath(rs + tail, p) == WithoutPath(rs, p) + WithoutPath(tail, p)
  {
    if tail != [] {
      assert (rs + tail)[..|rs + tail| - 1] == rs;
      assert tail[..0] == [];
    } else {
      assert rs + tail == rs;
    }
  }

  /** The three parallel lists hold, position by position, the content, metadata and id of `rs`. */
  predicate Columns(rs: seq<Record>, textFiles: seq<string>, metadatas: seq<Metadata>, ids: seq<string>) {
    && |textFiles| == |rs| && |metadatas| == |rs| && |ids| == |rs|
    && forall k :: 0 <= k < |rs| ==>
         textFiles[k] == rs[k].content && metadatas[k] == SourceMeta(rs[k].source) && ids[k] == DocId(rs[k].index)
  }

  /**
   * The scan loop over `enumerate(os.listdir(docs_path))`: three parallel
   * lists, holding for each kept entry its content, `{"source": name}`
   * and `doc<position>`; all three empty for a missing directory.
   */
  method ScanDirectory(listing: Option<seq<string>>, read: string -> ReadOutcome)
    returns (textFiles: seq<string>, metadatas: seq<Metadata>, ids: seq<string>)
    ensures listing.None? ==> textFiles == [] && metadatas == [] && ids == []
    ensures listing.Some? ==> Columns(Records(listing.value, read, |listing.value|), textFiles, metadatas, ids)
  {
    textFiles, metadatas, ids := [], [], [];
    if listing.None? {
      return;
    }
    var names := listing.value;
    var i := 0;
    while i < |names|
      invariant 0 <= i <= |names|
      invariant Columns(Records(names, read, i), textFiles, metadatas, ids)
    {
      var filename := names[i];
      ghost var before := Records(names, read, i);
      assert Records(names, read, i + 1) == before + Contribution(names, read, i);
      if EndsWith(filename, TextSuffix) {
        var outcome := read(DocPath(filename));
        if outcome.Read? {
          textFiles := textFiles + [outcome.content];
          metadatas := metadatas + [SourceMeta(filename)];
          ids := ids + [DocId(i)];
        }
      }
      i := i + 1;
    }
  }

  /** The arguments of one `collection.add` call. */
  datatype Batch = Batch(documents: seq<string>, metadatas: seq<Metadata>, ids: seq<string>)

  /** The two example documents added when no file was collected. */
  const FallbackBatch := Batch(["this is textfile1", "This is textfile2"],
                               [SourceMeta("textfile1"), SourceMeta("textfile2")],
                               ["doc1", "doc2"])

  /**
   * The one insertion: the collected lists when at least one document was
   * read, the two example documents otherwise. Either way the collection
   * receives parallel, non-empty lists, so the later query has something
   * to rank.
   */
  function ChooseBatch(textFiles: seq<string>, metadatas: seq<Metadata>, ids: seq<string>): (b: Batch)
    requires |textFiles| == |metadatas| == |ids|
    ensures textFiles != [] ==> b == Batch(textFiles, metadatas, ids)
    ensures textFiles == [] ==> b == FallbackBatch
    ensures |b.documents| == |b.metadatas| == |b.ids| >= 1
  {
    if textFiles != [] then Batch(textFiles, metadatas, ids) else FallbackBatch
  }

  /**
   * The indexing script up to the query: scan, then insert once. A
   * missing directory, or one with no readable `.txt` file, gives the
   * fallback documents; otherwise one document per kept entry, in listing
   * order.
   */
  method BuildIndex(listing: Option<seq<string>>, read: string -> ReadOutcome) returns (batch: Batch)
    ensures |batch.documents| == |batch.metadatas| == |batch.ids| >= 1
    ensures listing.None? ==> batch == FallbackBatch
    ensures listing.Some? && Records(listing.value, read, |listing.value|) == [] ==> batch == FallbackBatch
    ensures listing.Some? && Records(listing.value, read, |listing.value|) != [] ==>
              Columns(Records(listing.value, read, |listing.value|), batch.documents, batch.metadatas, batch.ids)
  {
    var textFiles, metadatas, ids := ScanDirectory(listing, read);
    batch := ChooseBatch(textFiles, metadatas, ids);
  }

  /** Nothing is collected exactly when no listing entry is kept. */
  lemma {:induction false} NoRecordsIffNoneKept(listing: seq<string>, read: string -> ReadOutcome, n: nat)
    requires n <= |listing|
    ensures Records(listing, read, n) == [] <==> forall i :: 0 <= i < n ==> !Kept(listing, read, i)
  {
    var rs := Records(listing, read, n);
    if rs != [] {
      RecordsSound(listing, read, n);
      assert rs[0] in rs;
    }
    forall i | 0 <= i < n && Kept(listing, read, i) ensures rs != [] {
      RecordsComplete(listing, read, n, i);
    }
  }
}
