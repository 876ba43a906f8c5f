/** Loading the pre-chunked university pages for the vector store: one JSON
    object per line, records without text are skipped, and the kept chunks
    are stored under the ids `doc_0`, `doc_1`, …. The JSON parser is passed
    in; the metadata object is kept as an opaque value of type `M`. */
module IngestionUVSQ {

  import opened Wrappers
  import opened Text

  /** One parsed line: its `content` and `metadata` keys. */
  datatype Record<M> = Record(content: Field<string>, metadata: Field<M>)

  /** The two lists `load_chunks_from_json` returns. */
  datatype Loaded<M> = Loaded(chunks: seq<string>, metadatas: seq<Option<M>>)

  /** `if not text: continue`: a missing, `null` or empty `content` is
      skipped. */
  predicate Keeps<M>(r: Record<M>)
  {
    r.content.Present? && r.content.value != ""
  }

  /** Positions of the kept records, in input order. */
  function KeptIndices<M>(recs: seq<Record<M>>): (ks: seq<nat>)
    ensures forall i :: 0 <= i < |ks| ==> ks[i] < |recs| && Keeps(recs[ks[i]])
    ensures forall i, j :: 0 <= i < j < |ks| ==> ks[i] < ks[j]
    ensures forall j :: 0 <= j < |recs| && Keeps(recs[j]) ==> j in ks
  {
    if |recs| == 0 then []
    else
      var n := |recs| - 1;
      var prefix := KeptIndices(recs[..n]);
      assert forall j :: 0 <= j < n ==> recs[..n][j] == recs[j];
      if Keeps(recs[n]) then prefix + [n] else prefix
  }

  /** The lists built from already parsed records: the i-th chunk and the
      i-th metadata come from the same record, the i-th kept one. */
  function Select<M>(recs: seq<Record<M>>): (r: Loaded<M>)
    ensures |r.chunks| == |r.metadatas| == |KeptIndices(recs)|
    ensures forall i :: 0 <= i < |r.chunks| ==>
      && r.chunks[i] != ""
      && recs[KeptIndices(recs)[i]].content == Present(r.chunks[i])
      && r.metadatas[i] == recs[KeptIndices(recs)[i]].metadata.Get()
  {
    var ks := KeptIndices(recs);
    Loaded(
      seq(|ks|, i requires 0 <= i < |ks| => recs[ks[i]].content.value),
      seq(|ks|, i requires 0 <= i < |ks| => recs[ks[i]].metadata.Get()))
  }

  /** `json.loads` on every line; `None` as soon as one line does not parse
      to an object. */
  function ParseAll<M>(lines: seq<string>, parse: string -> Option<Record<M>>): (r: Option<seq<Record<M>>>)
    ensures r.Some? <==> forall i :: 0 <= i < |lines| ==> parse(lines[i]).Some?
    ensures r.Some? ==> |r.value| == |lines| && forall i :: 0 <= i < |lines| ==> Some(r.value[i]) == parse(lines[i])
  {
    if |lines| == 0 then Some([])
    else
      var n := |lines| - 1;
      var prefix := ParseAll(lines[..n], parse);
      assert forall i :: 0 <= i < n ==> lines[..n][i] == lines[i];
      if prefix.None? || parse(lines[n]).None? then None
      else Some(prefix.value + [parse(lines[n]).value])
  }

  lemma {:induction false} SelectSnoc<M>(recs: seq<Record<M>>, r: Record<M>)
    ensures Select(recs + [r]) ==
      if Keeps(r) then Loaded(Select(recs).chunks + [r.content.value], Select(recs).metadatas + [r.metadata.Get()])
      else Select(recs)
  {
    var all := recs + [r];
    assert all[..|recs|] == recs;
  }

  /** `load_chunks_from_json` over the lines of the file. */
  method LoadChunksFromJson<M>(lines: seq<string>, parse: string -> Option<Record<M>>) returns (r: Option<Loaded<M>>)
    ensures r.Some? <==> ParseAll(lines, parse).Some?
    ensures r.Some? ==> r.value == Select(ParseAll(lines, parse).value)
  {
    var chunks: seq<string> := [];
    var metadatas: seq<Option<M>> := [];
    ghost var recs: seq<Record<M>> := [];
    var i := 0;
    while i < |lines|
      invariant 0 <= i <= |lines|
      invariant ParseAll(lines[..i], parse) == Some(recs)
      invariant Loaded(chunks, metadatas) == Select(recs)
    {
      var data := parse(lines[i]);
      ParseAllStep(lines, parse, i);
      if data.None? {
        ParsePrefixFails(lines, parse, i + 1);
        return None;
      }
      var text := data.value.content.Get();
      var metadata := data.value.metadata.Get();
      SelectSnoc(recs, data.value);
      recs := recs + [data.value];
      if text.Some? && text.value != "" {
        chunks := chunks + [text.value];
        metadatas := metadatas + [metadata];
      }
      i := i + 1;
    }
    assert lines[..i] == lines;
    return Some(Loaded(chunks, metadatas));
  }

  /** Parsing one more line extends the parsed prefix, or fails it. */
  lemma ParseAllStep<M>(lines: seq<string>, parse: string -> Option<Record<M>>, i: nat)
    requires i < |lines| && ParseAll(lines[..i], parse).Some?
    ensures ParseAll(lines[..i + 1], parse) ==
      if parse(lines[i]).None? then None
      else Some(ParseAll(lines[..i], parse).value + [parse(lines[i]).value])
  {
    assert lines[..i + 1][..i] == lines[..i];
  }

  /** A line that does not parse makes the whole file fail. */
  lemma ParsePrefixFails<M>(lines: seq<string>, parse: string -> Option<Record<M>>, k: nat)
    requires k <= |lines| && ParseAll(lines[..k], parse).None?
    ensures ParseAll(lines, parse).None?
  {
    var j :| 0 <= j < k && parse(lines[..k][j]).None?;
    assert lines[..k][j] == lines[j];
  }

  /** The ids of `embed_chunks_to_chroma`, one per chunk. */
  function DocIds(n: nat): (ids: seq<string>)
    ensures |ids| == n
  {
    seq(n, i requires 0 <= i < n => "doc_" + NatToString(i))
  }

  /** Reading the number back out of an id gives its position. */
  lemma DocIdNumber(n: nat, i: nat)
    requires i < n
    ensures StartsWith(DocIds(n)[i], "doc_")
    ensures var digits := DocIds(n)[i][4..];
      (forall k :: 0 <= k < |digits| ==> IsDigit(digits[k])) && ParseNat(digits) == i
  {
    var id := DocIds(n)[i];
    assert id[4..] == NatToString(i);
    ParseNatToString(i);
  }

  /** No two chunks share an id. */
  lemma DocIdsDistinct(n: nat, i: nat, j: nat)
    requires i < n && j < n && i != j
    ensures DocIds(n)[i] != DocIds(n)[j]
  {
    DocIdNumber(n, i);
    DocIdNumber(n, j);
  }

  /** One entry added to the collection. */
  datatype Entry<M> = Entry(id: string, document: string, metadata: Option<M>)

  /** What `ingest_to_chroma` adds: the loaded chunks, each with its own
      metadata and its positional id. */
  function Entries<M>(l: Loaded<M>): (es: seq<Entry<M>>)
    requires |l.chunks| == |l.metadatas|
    ensures |es| == |l.chunks|
    ensures forall i :: 0 <= i < |es| ==> es[i].document == l.chunks[i] && es[i].metadata == l.metadatas[i]
  {
    var ids := DocIds(|l.chunks|);
    seq(|l.chunks|, i requires 0 <= i < |l.chunks| => Entry(ids[i], l.chunks[i], l.metadatas[i]))
  }

  /** Every stored document is non-empty text and carries an id no other
      entry has. */
  lemma IngestedEntries<M>(lines: seq<string>, parse: string -> Option<Record<M>>, i: nat, j: nat)
    requires ParseAll(lines, parse).Some?
    requires var l := Select(ParseAll(lines, parse).value); i < |l.chunks| && j < |l.chunks|
    ensures var es := Entries(Select(ParseAll(lines, parse).value));
      es[i].document != "" && (i != j ==> es[i].id != es[j].id)
  {
    var l := Select(ParseAll(lines, parse).value);
    if i != j {
      DocIdsDistinct(|l.chunks|, i, j);
    }
  }
}
