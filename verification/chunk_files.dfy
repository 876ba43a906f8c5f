/** Chunking a folder of Markdown pages: each `.md` file in the listing is
    split by the header splitter (passed in as a function of the file name),
    and every chunk's text is collected together with metadata naming its
    file and its position in that file. */
module ChunkFiles {

  import opened Text

  /** A metadata value: the file name, the chunk index, or a header text
      from the splitter. */
  datatype MetaValue = Str(s: string) | Int(n: int)

  type Metadata = map<string, MetaValue>

  /** A splitter chunk: `page_content` and `metadata`. */
  datatype Document = Document(pageContent: string, metadata: Metadata)

  /** One collected chunk: the entries of `all_chunks` and `metadatas` at
      the same position. */
  datatype Chunk = Chunk(content: string, metadata: Metadata)

  predicate IsMarkdown(filename: string)
  {
    EndsWith(filename, ".md")
  }

  /** `{"source": filename, "chunk_id": i, **meta}`: the splitter's keys are
      written last, so they win over the two fixed ones. */
  function ChunkMetadata(filename: string, i: nat, meta: Metadata): (r: Metadata)
    ensures r.Keys == meta.Keys + {"source", "chunk_id"}
    ensures forall k :: k in meta ==> r[k] == meta[k]
    ensures "source" !in meta ==> r["source"] == Str(filename)
    ensures "chunk_id" !in meta ==> r["chunk_id"] == Int(i)
  {
    map["source" := Str(filename), "chunk_id" := Int(i)] + meta
  }

  /** The chunks one file contributes, in the splitter's order. */
  function FileChunks(filename: string, docs: seq<Document>): (cs: seq<Chunk>)
    ensures |cs| == |docs|
    ensures forall i :: 0 <= i < |docs| ==>
      cs[i] == Chunk(docs[i].pageContent, ChunkMetadata(filename, i, docs[i].metadata))
  {
    seq(|docs|, i requires 0 <= i < |docs| => Chunk(docs[i].pageContent, ChunkMetadata(filename, i, docs[i].metadata)))
  }

  /** The chunks of a listing, file after file; files not ending in `.md`
      contribute nothing. */
  function Collected(listing: seq<string>, chunker: string -> seq<Document>): (cs: seq<Chunk>)
    ensures (forall i :: 0 <= i < |listing| ==> !IsMarkdown(listing[i])) ==> cs == []
  {
    if |listing| == 0 then []
    else
      var n := |listing| - 1;
      assert forall i :: 0 <= i < n ==> listing[..n][i] == listing[i];
      Collected(listing[..n], chunker)
      + (if IsMarkdown(listing[n]) then FileChunks(listing[n], chunker(listing[n])) else [])
  }

  /** The two parallel lists hold exactly the chunks `cs`. */
  predicate Holds(texts: seq<string>, metas: seq<Metadata>, cs: seq<Chunk>)
  {
    && |texts| == |metas| == |cs|
    && forall j :: 0 <= j < |cs| ==> Chunk(texts[j], metas[j]) == cs[j]
  }

  lemma HoldsSnoc(texts: seq<string>, metas: seq<Metadata>, cs: seq<Chunk>, text: string, meta: Metadata)
    requires Holds(texts, metas, cs)
    ensures Holds(texts + [text], metas + [meta], cs + [Chunk(text, meta)])
  {
  }

  /** The prefix of a listing one name longer collects that name's chunks
      after the shorter prefix's. */
  lemma CollectedPrefixStep(listing: seq<string>, f: nat, chunker: string -> seq<Document>)
    requires f < |listing|
    ensures Collected(listing[..f + 1], chunker)
         == Collected(listing[..f], chunker)
          + (if IsMarkdown(listing[f]) then FileChunks(listing[f], chunker(listing[f])) else [])
  {
    assert listing[..f + 1][..f] == listing[..f];
  }

  /** The inner loop of `chunk_folder`: one file's splitter chunks appended
      to the two lists, numbered from 0. */
  method AppendFileChunks(texts: seq<string>, metas: seq<Metadata>, filename: string, docs: seq<Document>, ghost cs: seq<Chunk>)
    returns (texts': seq<string>, metas': seq<Metadata>)
    requires Holds(texts, metas, cs)
    ensures Holds(texts', metas', cs + FileChunks(filename, docs))
  {
    texts', metas' := texts, metas;
    ghost var added := FileChunks(filename, docs);
    var i := 0;
    while i < |docs|
      invariant 0 <= i <= |docs|
      invariant Holds(texts', metas', cs + added[..i])
    {
      HoldsSnoc(texts', metas', cs + added[..i], docs[i].pageContent, ChunkMetadata(filename, i, docs[i].metadata));
      assert added[..i + 1] == added[..i] + [added[i]];
      texts' := texts' + [docs[i].pageContent];
      metas' := metas' + [ChunkMetadata(filename, i, docs[i].metadata)];
      i := i + 1;
    }
    assert added[..i] == added;
  }

  /** `chunk_folder` over the directory listing: the texts and the metadata
      of `Collected`, as two lists of equal length. */
  method ChunkFolder(listing: seq<string>, chunker: string -> seq<Document>)
    returns (allChunks: seq<string>, metadatas: seq<Metadata>)
    ensures |allChunks| == |metadatas| == |Collected(listing, chunker)|
    ensures forall j :: 0 <= j < |allChunks| ==>
      Chunk(allChunks[j], metadatas[j]) == Collected(listing, chunker)[j]
  {
    allChunks := [];
    metadatas := [];
    var f := 0;
    while f < |listing|
      invariant 0 <= f <= |listing|
      invariant Holds(allChunks, metadatas, Collected(listing[..f], chunker))
    {
      var filename := listing[f];
      CollectedPrefixStep(listing, f, chunker);
      if IsMarkdown(filename) {
        allChunks, metadatas := AppendFileChunks(allChunks, metadatas, filename, chunker(filename), Collected(listing[..f], chunker));
      } else {
        assert Collected(listing[..f + 1], chunker) == Collected(listing[..f], chunker) + [];
      }
      f := f + 1;
    }
    assert listing[..f] == listing;
  }

  // ---------------------------------------------------------------------
  // Properties of the collected chunks
  // ---------------------------------------------------------------------

  /** The `.md` files of a listing, in listing order. */
  function MarkdownFiles(listing: seq<string>): (r: seq<string>)
    ensures forall i :: 0 <= i < |r| ==> IsMarkdown(r[i]) && r[i] in listing
    ensures forall i :: 0 <= i < |listing| && IsMarkdown(listing[i]) ==> listing[i] in r
  {
    if |listing| == 0 then []
    else
      var n := |listing| - 1;
      var prefix := MarkdownFiles(listing[..n]);
      assert forall x :: x in listing[..n] ==> x in listing;
      assert forall i :: 0 <= i < n ==> listing[..n][i] == listing[i];
      prefix + (if IsMarkdown(listing[n]) then [listing[n]] else [])
  }

  /** The filter keeps the `.md` names in listing order, each as often as
      it occurs: it works name by name, and one name is kept exactly when it
      ends in `.md`. */
  lemma {:induction false} MarkdownFilesAppend(a: seq<string>, b: seq<string>)
    ensures MarkdownFiles(a + b) == MarkdownFiles(a) + MarkdownFiles(b)
    ensures |b| == 1 ==> MarkdownFiles(b) == (if IsMarkdown(b[0]) then b else [])
    decreases |b|
  {
    if |b| > 0 {
      var n := |b| - 1;
      MarkdownFilesAppend(a, b[..n]);
      assert (a + b)[..|a + b| - 1] == a + b[..n];
      assert (a + b)[|a + b| - 1] == b[n];
      if |b| == 1 {
        assert b[..n] == [];
        assert MarkdownFiles([]) == [];
      }
    } else {
      assert a + b == a;
    }
  }

  /** Only the `.md` files matter: dropping every other name from the
      listing leaves the collected chunks unchanged. */
  lemma {:induction false} OnlyMarkdownCounts(listing: seq<string>, chunker: string -> seq<Document>)
    ensures Collected(MarkdownFiles(listing), chunker) == Collected(listing, chunker)
  {
    if |listing| > 0 {
      var n := |listing| - 1;
      OnlyMarkdownCounts(listing[..n], chunker);
      var prefix := MarkdownFiles(listing[..n]);
      if IsMarkdown(listing[n]) {
        var md := prefix + [listing[n]];
        assert MarkdownFiles(listing) == md;
        assert md[..|md| - 1] == prefix && md[|md| - 1] == listing[n];
        assert Collected(md, chunker) == Collected(prefix, chunker) + FileChunks(listing[n], chunker(listing[n]));
      } else {
        assert MarkdownFiles(listing) == prefix;
      }
    }
  }

  /** Collecting a listing made of two parts collects the first part, then
      the second. */
  lemma {:induction false} CollectedAppend(a: seq<string>, b: seq<string>, chunker: string -> seq<Document>)
    ensures Collected(a + b, chunker) == Collected(a, chunker) + Collected(b, chunker)
    decreases |b|
  {
    if |b| > 0 {
      var n := |b| - 1;
      CollectedAppend(a, b[..n], chunker);
      var last := if IsMarkdown(b[n]) then FileChunks(b[n], chunker(b[n])) else [];
      assert (a + b)[..|a + b| - 1] == a + b[..n];
      assert (a + b)[|a + b| - 1] == b[n];
      assert Collected(a + b, chunker) == Collected(a + b[..n], chunker) + last;
      assert Collected(b, chunker) == Collected(b[..n], chunker) + last;
    } else {
      assert a + b == a;
    }
  }

  /** The chunk ids restart at every file: the chunks of the file at the end
      of the listing are numbered 0, 1, 2, … and name that file, unless the
      splitter's own metadata sets those keys. */
  lemma ChunkIdsRestart(listing: seq<string>, filename: string, chunker: string -> seq<Document>, i: nat)
    requires IsMarkdown(filename) && i < |chunker(filename)|
    ensures var c := Collected(listing + [filename], chunker)[|Collected(listing, chunker)| + i];
      var meta := chunker(filename)[i].metadata;
      && c.content == chunker(filename)[i].pageContent
      && ("chunk_id" !in meta ==> c.metadata["chunk_id"] == Int(i))
      && ("source" !in meta ==> c.metadata["source"] == Str(filename))
  {
    assert (listing + [filename])[..|listing|] == listing;
  }
}
