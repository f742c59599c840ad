/**
 * The remote document format over a gist's file map: what saveToGist writes and how
 * loadFromGist reads it back, in the current version (src/lib/storage.js) and in the
 * older, strict one (src/lib/gist.js).
 */
module Format {
  import opened Wrappers
  import opened Groups
  import opened Text
  import opened Chunking

  /** The synchronised document `{ groups, lastSync }`. */
  datatype Document = Document(groups: seq<Group>, lastSync: Option<Timestamp>)

  /** `{ groups: [] }`. */
  const EmptyDocument: Document := Document([], None)

  /** What `JSON.parse` returns, as far as loadFromGist looks at it. */
  datatype Parsed =
    | JsonNull
    | JsonArray(items: seq<Group>)
      // `groups` holds the `groups` property when that property is an array
    | JsonObject(groups: Option<seq<Group>>, lastSync: Option<Timestamp>)
    | JsonScalar   // a string, a number or a boolean

  /**
   * JSON.stringify and JSON.parse, on the document and on the index resource. The
   * library is not part of this model; `parseIndex` gives the names `for...of` visits
   * in `index.files`, or the exception parsing or iterating throws.
   */
  datatype JsonCodec = JsonCodec(
    stringify: Document -> string,
    parse: string -> Result<Parsed>,
    stringifyIndex: (Timestamp, seq<string>) -> string,
    parseIndex: string -> Result<seq<string>>)

  /** What the round-trip results assume of JSON: it reads back what it wrote. */
  ghost predicate LawfulJson(json: JsonCodec) {
    && (forall d :: json.parse(json.stringify(d)) == Ok(JsonObject(Some(d.groups), d.lastSync)))
    && (forall d :: json.stringify(d) != [])
    && (forall t, names :: json.parseIndex(json.stringifyIndex(t, names)) == Ok(names))
    && (forall t, names :: !IsBlank(json.stringifyIndex(t, names)))
    && json.parse("").Err?
  }

  // ---------------------------------------------------------------------------
  // Writing.

  /** The `files` object saveToGist sends: every chunk, then the index listing them. */
  function EncodeFiles(json: JsonCodec, d: Document, now: Timestamp): map<string, string> {
    var chunks := Chunks(json.stringify(d));
    PartTable(chunks)[IndexName := json.stringifyIndex(now, PartNames(|chunks|))]
  }

  /** The single index resource createGist creates a container with. */
  function InitialFiles(json: JsonCodec, now: Timestamp): map<string, string> {
    map[IndexName := json.stringifyIndex(now, [])]
  }

  /** Chunk k of `chunks` is the content of `data-part{k+1}.json` in `files`. */
  ghost predicate Stores(files: map<string, string>, chunks: seq<string>) {
    forall k :: 0 <= k < |chunks| ==> StoredAt(files, chunks, k)
  }

  ghost predicate StoredAt(files: map<string, string>, chunks: seq<string>, k: nat)
    requires k < |chunks|
  {
    PartName(k + 1) in files && files[PartName(k + 1)] == chunks[k]
  }

  /**
   * After a PATCH with EncodeFiles, whatever the gist held before, the index is the
   * written one and every listed chunk holds its slice.
   */
  lemma EncodedFiles(json: JsonCodec, d: Document, now: Timestamp, prior: map<string, string>)
    ensures var chunks := Chunks(json.stringify(d));
            var files := prior + EncodeFiles(json, d, now);
            && IndexName in files
            && files[IndexName] == json.stringifyIndex(now, PartNames(|chunks|))
            && Stores(files, chunks)
  {
    var chunks := Chunks(json.stringify(d));
    var files := prior + EncodeFiles(json, d, now);
    var table := PartTable(chunks);
    forall k: nat | k < |chunks|
      ensures StoredAt(files, chunks, k)
    {
      PartTableAt(chunks, k);
      PartNameInjective(k + 1, 0);
      assert PartName(k + 1) in EncodeFiles(json, d, now);
      assert EncodeFiles(json, d, now)[PartName(k + 1)] == table[PartName(k + 1)];
    }
    assert Stores(files, chunks);
  }

  // ---------------------------------------------------------------------------
  // Reading, current version: missing or blank index or chunks are tolerated.

  /** Contents of the listed files that are present and not blank, in index order. */
  function Surviving(files: map<string, string>, names: seq<string>): seq<string>
    decreases |names|
  {
    if |names| == 0 then []
    else
      var name := names[|names| - 1];
      var init := Surviving(files, names[..|names| - 1]);
      if name in files && !IsBlank(files[name]) then init + [files[name]] else init
  }

  /** The reassembly loop: `data += partContent` for every listed, present, non-blank chunk. */
  method Reassemble(files: map<string, string>, names: seq<string>) returns (data: string)
    ensures data == Concat(Surviving(files, names))
  {
    data := "";
    var i := 0;
    while i < |names|
      invariant 0 <= i <= |names|
      invariant data == Concat(Surviving(files, names[..i]))
    {
      var name := names[i];
      assert names[..i + 1][..i] == names[..i] && names[..i + 1][i] == name;
      if name in files && !IsBlank(files[name]) {
        ConcatSnoc(Surviving(files, names[..i]), files[name]);
        data := data + files[name];
      }
      i := i + 1;
    }
    assert names[..i] == names;
  }

  /** The shape rules: `{groups: [...]}` as it is, a bare array as the group list, else empty. */
  function Normalise(p: Parsed): Result<Document> {
    match p
    case JsonNull => Err(TypeError)   // `parsed.groups` on null throws
    case JsonObject(Some(groups), lastSync) => Ok(Document(groups, lastSync))
    case JsonArray(items) => Ok(Document(items, None))
    case _ => Ok(EmptyDocument)
  }

  lemma {:induction false} SurvivingBlank(files: map<string, string>, names: seq<string>)
    ensures IsBlank(Concat(Surviving(files, names))) <==> Surviving(files, names) == []
    decreases |names|
  {
    if |names| > 0 {
      var init := names[..|names| - 1];
      var name := names[|names| - 1];
      SurvivingBlank(files, init);
      if name in files && !IsBlank(files[name]) {
        assert Surviving(files, names) == Surviving(files, init) + [files[name]];
        ConcatSnoc(Surviving(files, init), files[name]);
        BlankAppend(Concat(Surviving(files, init)), files[name]);
      }
    }
  }

  /** loadFromGist after the GET: index, reassembly, parse, shape. */
  function DecodeFiles(json: JsonCodec, files: map<string, string>): (r: Result<Document>)
    ensures IndexName !in files || IsBlank(files[IndexName]) ==> r == Ok(EmptyDocument)
    ensures IndexName in files && json.parseIndex(files[IndexName]).Ok?
            && Surviving(files, json.parseIndex(files[IndexName]).value) == []
            ==> r == Ok(EmptyDocument)
  {
    if IndexName !in files || IsBlank(files[IndexName]) then Ok(EmptyDocument)
    else
      match json.parseIndex(files[IndexName])
      case Err(e) => Err(e)
      case Ok(names) =>
        SurvivingBlank(files, names);
        var data := Concat(Surviving(files, names));
        if IsBlank(data) then Ok(EmptyDocument)
        else
          match json.parse(data)
          case Err(e) => Err(e)
          case Ok(p) => Normalise(p)
  }

  lemma {:induction false} SurvivingAgree(f: map<string, string>, g: map<string, string>, names: seq<string>)
    requires forall n :: n in names ==> (n in f <==> n in g) && (n in f ==> f[n] == g[n])
    ensures Surviving(f, names) == Surviving(g, names)
    decreases |names|
  {
    if |names| > 0 {
      SurvivingAgree(f, g, names[..|names| - 1]);
    }
  }

  /**
   * Only the index and the files it lists are read: two file maps that agree on those
   * decode alike, so stale chunks left by an earlier, longer save are ignored.
   */
  lemma DecodeReadsOnlyListed(json: JsonCodec, f: map<string, string>, g: map<string, string>, names: seq<string>)
    requires IndexName in f && IndexName in g && f[IndexName] == g[IndexName]
    requires json.parseIndex(f[IndexName]) == Ok(names)
    requires forall n :: n in names ==> (n in f <==> n in g) && (n in f ==> f[n] == g[n])
    ensures DecodeFiles(json, f) == DecodeFiles(json, g)
  {
    SurvivingAgree(f, g, names);
  }

  lemma {:induction false} SurvivingStored(files: map<string, string>, chunks: seq<string>, n: nat)
    requires Stores(files, chunks) && n <= |chunks|
    requires forall c :: c in chunks ==> !IsBlank(c)
    ensures Surviving(files, PartNames(|chunks|)[..n]) == chunks[..n]
  {
    if n > 0 {
      SurvivingStored(files, chunks, n - 1);
      var names := PartNames(|chunks|)[..n];
      assert names[..n - 1] == PartNames(|chunks|)[..n - 1];
      assert names[n - 1] == PartName(n);
      assert chunks[..n] == chunks[..n - 1] + [chunks[n - 1]];
      assert StoredAt(files, chunks, n - 1);
      assert !IsBlank(chunks[n - 1]);
    }
  }

  /** Stored chunks, none of them blank, all survive reassembly. */
  lemma StoredSurvive(files: map<string, string>, chunks: seq<string>)
    requires Stores(files, chunks)
    requires forall c :: c in chunks ==> !IsBlank(c)
    ensures Surviving(files, PartNames(|chunks|)) == chunks
  {
    SurvivingStored(files, chunks, |chunks|);
    assert PartNames(|chunks|)[..|chunks|] == PartNames(|chunks|) && chunks[..|chunks|] == chunks;
  }

  /** Decoding a container whose index lists files that reassemble to non-blank, parseable text. */
  lemma DecodeListed(json: JsonCodec, files: map<string, string>, names: seq<string>, p: Parsed)
    requires IndexName in files && !IsBlank(files[IndexName])
    requires json.parseIndex(files[IndexName]) == Ok(names)
    requires !IsBlank(Concat(Surviving(files, names)))
    requires json.parse(Concat(Surviving(files, names))) == Ok(p)
    ensures DecodeFiles(json, files) == Normalise(p)
  {
  }

  /**
   * The round trip: when no chunk is blank, reading back what saveToGist wrote gives the
   * saved document, whatever files the gist held before.
   */
  lemma SaveLoadRoundTrip(json: JsonCodec, d: Document, now: Timestamp, prior: map<string, string>)
    requires LawfulJson(json)
    requires forall c :: c in Chunks(json.stringify(d)) ==> !IsBlank(c)
    ensures DecodeFiles(json, prior + EncodeFiles(json, d, now)) == Ok(d)
  {
    var s := json.stringify(d);
    var chunks := Chunks(s);
    var files := prior + EncodeFiles(json, d, now);
    var names := PartNames(|chunks|);
    EncodedFiles(json, d, now, prior);
    StoredSurvive(files, chunks);
    ChunksConcat(s);
    assert chunks != [] by { assert s != []; }
    SurvivingBlank(files, names);
    DecodeListed(json, files, names, JsonObject(Some(d.groups), d.lastSync));
  }

  /** A freshly created container decodes to the empty document. */
  lemma FreshContainerIsEmpty(json: JsonCodec, now: Timestamp)
    requires LawfulJson(json)
    ensures DecodeFiles(json, InitialFiles(json, now)) == Ok(EmptyDocument)
  {
    var files := InitialFiles(json, now);
    assert json.parseIndex(files[IndexName]) == Ok([]);
  }

  // ---------------------------------------------------------------------------
  // Reading, older version: every listed chunk must exist, nothing is skipped or reshaped.

  /** Every listed name is a file. */
  predicate AllListed(files: map<string, string>, names: seq<string>) {
    forall i :: 0 <= i < |names| ==> names[i] in files
  }

  /** The contents of the listed files, in index order. */
  function Listed(files: map<string, string>, names: seq<string>): seq<string>
    requires AllListed(files, names)
  {
    seq(|names|, i requires 0 <= i < |names| => files[names[i]])
  }

  lemma ListedSnoc(files: map<string, string>, names: seq<string>, i: nat)
    requires i < |names| && AllListed(files, names[..i]) && names[i] in files
    ensures AllListed(files, names[..i + 1])
    ensures Listed(files, names[..i + 1]) == Listed(files, names[..i]) + [files[names[i]]]
  {
  }

  /** The strict loop: `data += files[filename].content` throws on a listed file that is absent. */
  method ReassembleStrict(files: map<string, string>, names: seq<string>) returns (r: Result<string>)
    ensures AllListed(files, names) ==> r == Ok(Concat(Listed(files, names)))
    ensures !AllListed(files, names) ==> r == Err(TypeError)
  {
    var data := "";
    var i := 0;
    while i < |names|
      invariant 0 <= i <= |names|
      invariant AllListed(files, names[..i])
      invariant data == Concat(Listed(files, names[..i]))
    {
      if names[i] !in files {
        return Err(TypeError);
      }
      ListedSnoc(files, names, i);
      ConcatSnoc(Listed(files, names[..i]), files[names[i]]);
      data := data + files[names[i]];
      i := i + 1;
    }
    assert names[..i] == names;
    return Ok(data);
  }

  /** gist.js loadFromGist after the GET: the parsed concatenation, as it is. */
  function DecodeStrict(json: JsonCodec, files: map<string, string>): (r: Result<Parsed>)
    ensures IndexName !in files ==> r == Err(TypeError)
    ensures (IndexName in files && json.parseIndex(files[IndexName]).Ok?
             && !AllListed(files, json.parseIndex(files[IndexName]).value))
            ==> r == Err(TypeError)
  {
    if IndexName !in files then Err(TypeError)   // `files['index.json'].content` on undefined
    else
      match json.parseIndex(files[IndexName])
      case Err(e) => Err(e)
      case Ok(names) =>
        if !AllListed(files, names) then Err(TypeError)
        else json.parse(Concat(Listed(files, names)))
  }

  /** The strict round trip needs no condition on the chunks: nothing is skipped. */
  lemma StrictRoundTrip(json: JsonCodec, d: Document, now: Timestamp, prior: map<string, string>)
    requires LawfulJson(json)
    ensures DecodeStrict(json, prior + EncodeFiles(json, d, now)) == Ok(JsonObject(Some(d.groups), d.lastSync))
  {
    var s := json.stringify(d);
    var chunks := Chunks(s);
    var files := prior + EncodeFiles(json, d, now);
    var names := PartNames(|chunks|);
    EncodedFiles(json, d, now, prior);
    assert json.parseIndex(files[IndexName]) == Ok(names);
    assert AllListed(files, names) by {
      forall i | 0 <= i < |names| ensures names[i] in files {
        assert names[i] == PartName(i + 1);
        assert StoredAt(files, chunks, i);
      }
    }
    assert Listed(files, names) == chunks by {
      forall i | 0 <= i < |names| ensures Listed(files, names)[i] == chunks[i] {
        assert names[i] == PartName(i + 1);
        assert StoredAt(files, chunks, i);
      }
    }
    ChunksConcat(s);
  }

  /** The strict reader fails on a freshly created container: it parses the empty string. */
  lemma StrictFreshContainerFails(json: JsonCodec, now: Timestamp)
    requires LawfulJson(json)
    ensures DecodeStrict(json, InitialFiles(json, now)).Err?
  {
    var files := InitialFiles(json, now);
    assert json.parseIndex(files[IndexName]) == Ok([]);
    assert Listed(files, []) == [];
  }
}
