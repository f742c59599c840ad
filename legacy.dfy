/**
 * The older sync back end, src/lib/gist.js: headers built without a token check,
 * create-and-cache container lookup, the same chunked save, and a strict load.
 */
module Legacy {
  import opened Wrappers
  import opened Groups
  import opened Text
  import opened Chunking
  import opened Format
  import opened Platform

  /** getAuthHeaders: always `token ${result.pat}`, which reads "token undefined" without a token. */
  function LegacyHeaders(pat: Option<string>): Headers {
    Headers("token " + (if pat.None? then "undefined" else pat.value))
  }

  /** The headers are accepted exactly when the stored text (or the word undefined) is the server's token. */
  lemma LegacyHeadersAccepted(token: string, pat: Option<string>)
    ensures Authorizes(token, Some(LegacyHeaders(pat))) <==> token == (if pat.None? then "undefined" else pat.value)
  {
    var t := if pat.None? then "undefined" else pat.value;
    if Authorizes(token, Some(LegacyHeaders(pat))) {
      assert ("token " + t)[6..] == t;
      assert ("token " + token)[6..] == token;
    }
  }

  /**
   * The container the older getGistId settles on, from the state before it: the cached
   * id, or else a gist created under `newId` with an empty index; Err when that creation
   * fails.
   */
  function LegacyContainer(store: LocalStore, service: GistService, json: JsonCodec, now: Timestamp, newId: string)
    : Result<Container>
    reads store, service
  {
    if store.gistId != "" then Ok(Container(store.gistId, service.gists))
    else if CreateGist in service.down || !Authorizes(service.token, Some(LegacyHeaders(store.pat))) then Err(NetworkError)
    else Ok(Container(newId, service.gists + [Gist(newId, SyncDescription, false, InitialFiles(json, now))]))
  }

  /**
   * What the older loadFromGist answers, from the state before it: the lookup's error, a
   * failed GET, or the container's files decoded by the strict rules.
   */
  function LegacyLoaded(store: LocalStore, service: GistService, json: JsonCodec, now: Timestamp, newId: string)
    : Result<Parsed>
    reads store, service
  {
    match LegacyContainer(store, service, json, now, newId)
    case Err(e) => Err(e)
    case Ok(c) =>
      if GetGist in service.down || !Authorizes(service.token, Some(LegacyHeaders(store.pat)))
         || FilesOf(c.gists, c.id).None? then Err(NetworkError)
      else DecodeStrict(json, FilesOf(c.gists, c.id).value)
  }

  /** On a first run the container is created and read back at once, and that read fails. */
  lemma LegacyFirstRunFails(store: LocalStore, service: GistService, json: JsonCodec, now: Timestamp, newId: string)
    requires LawfulJson(json) && service.FreshId(newId) && store.gistId == ""
    ensures LegacyLoaded(store, service, json, now, newId).Err?
  {
    FilesOfFresh(service.gists, Gist(newId, SyncDescription, false, InitialFiles(json, now)));
    StrictFreshContainerFails(json, now);
  }

  /** createGist: a new private gist holding an empty index, whatever the headers. */
  method CreateSyncGist(store: LocalStore, service: GistService, json: JsonCodec, now: Timestamp, newId: string)
    returns (r: Result<string>)
    requires service.FreshId(newId)
    modifies service
    ensures service.token == old(service.token) && service.down == old(service.down)
    ensures service.log == old(service.log) + [CreateGist]
    ensures r.Err? <==> CreateGist in service.down || !Authorizes(service.token, Some(LegacyHeaders(store.pat)))
    ensures r.Ok? ==>
              r.value == newId && service.gists == old(service.gists) + [Gist(newId, SyncDescription, false, InitialFiles(json, now))]
    ensures r.Err? ==> r.error == NetworkError && service.gists == old(service.gists)
  {
    r := service.Create(Some(LegacyHeaders(store.pat)), SyncDescription, InitialFiles(json, now), newId);
  }

  /**
   * getGistId with its failure reported: the cached id, or else a newly created gist
   * whose id is cached. There is no lookup by description.
   */
  method GetGistId(store: LocalStore, service: GistService, json: JsonCodec, now: Timestamp, newId: string)
    returns (r: Result<string>)
    requires store.gistId == "" ==> service.FreshId(newId)
    modifies store, service
    ensures store.pat == old(store.pat) && store.groups == old(store.groups) && store.lastSync == old(store.lastSync)
    ensures service.token == old(service.token) && service.down == old(service.down)
    ensures r.Ok? ==> store.gistId == r.value && r.value != ""
    ensures old(store.gistId) != "" ==> r == Ok(old(store.gistId)) && unchanged(store) && unchanged(service)
    ensures old(store.gistId) == "" ==> service.log == old(service.log) + [CreateGist]
    // the lookup settles on LegacyContainer's container, and caches it
    ensures var c := old(LegacyContainer(store, service, json, now, newId));
            && (r.Ok? <==> c.Ok?)
            && (r.Ok? ==> r.value == c.value.id && service.gists == c.value.gists)
            && (r.Err? ==> r.error == NetworkError && store.gistId == "" && service.gists == old(service.gists))
  {
    if store.gistId != "" {
      return Ok(store.gistId);
    }
    var created := CreateSyncGist(store, service, json, now, newId);
    if created.Err? {
      return Err(created.error);
    }
    store.gistId := created.value;
    return Ok(created.value);
  }

  /**
   * getGistId as written: the rejection of the awaited `createGist` escapes the async
   * storage callback, so `resolve` is never called and the promise never settles.
   */
  method GetGistIdAsWritten(store: LocalStore, service: GistService, json: JsonCodec, now: Timestamp, newId: string)
    returns (s: Settlement<string>)
    requires store.gistId == "" ==> service.FreshId(newId)
    modifies store, service
    ensures store.pat == old(store.pat) && service.token == old(service.token) && service.down == old(service.down)
    // pending exactly when the corrected lookup fails: a first run whose creation is refused
    ensures s == Pending <==>
              old(store.gistId) == ""
              && (CreateGist in service.down || !Authorizes(service.token, Some(LegacyHeaders(store.pat))))
    // otherwise it settles on LegacyContainer's container
    ensures var c := old(LegacyContainer(store, service, json, now, newId));
            s.Resolved? ==> c.Ok? && s.value == c.value.id && store.gistId == s.value && service.gists == c.value.gists
  {
    if store.gistId != "" {
      return Resolved(store.gistId);
    }
    var created := CreateSyncGist(store, service, json, now, newId);
    if created.Err? {
      return Pending;
    }
    store.gistId := created.value;
    return Resolved(created.value);
  }

  /** A first run with the create endpoint failing: as written it hangs, corrected it fails. */
  method FirstLookupWithCreateDown(json: JsonCodec) returns (s: Settlement<string>, r: Result<string>)
    ensures s == Pending
    ensures r.Err?
  {
    var store := new LocalStore(Some("secret"), "", [], None);
    var service := new GistService([], "secret", {CreateGist});
    s := GetGistIdAsWritten(store, service, json, 0, "g1");
    var store2 := new LocalStore(Some("secret"), "", [], None);
    var service2 := new GistService([], "secret", {CreateGist});
    r := GetGistId(store2, service2, json, 0, "g1");
  }

  /**
   * A first run with no token stored: the request goes out as `token undefined`, the
   * server refuses it, and as written the lookup hangs while corrected it fails.
   */
  method FirstLookupWithoutToken(json: JsonCodec) returns (s: Settlement<string>, r: Result<string>)
    ensures s == Pending
    ensures r.Err?
  {
    LegacyHeadersAccepted("secret", None);
    var store := new LocalStore(None, "", [], None);
    var service := new GistService([], "secret", {});
    s := GetGistIdAsWritten(store, service, json, 0, "g1");
    var store2 := new LocalStore(None, "", [], None);
    var service2 := new GistService([], "secret", {});
    r := GetGistId(store2, service2, json, 0, "g1");
  }

  /**
   * saveToGist: the same chunks and index as the current version, with every failure
   * rethrown. `prior` is what the container held before the PATCH.
   */
  method SaveToGist(store: LocalStore, service: GistService, json: JsonCodec, d: Document, now: Timestamp, newId: string)
    returns (r: Result<bool>, ghost prior: map<string, string>)
    requires store.gistId == "" ==> service.FreshId(newId)
    modifies store, service
    ensures store.pat == old(store.pat) && store.groups == old(store.groups) && store.lastSync == old(store.lastSync)
    ensures service.token == old(service.token) && service.down == old(service.down)
    ensures r != Ok(false)
    // saved exactly when the lookup succeeds and the PATCH goes through
    ensures var c := old(LegacyContainer(store, service, json, now, newId));
            r.Ok? <==>
              && c.Ok? && PatchGist !in service.down && Authorizes(service.token, Some(LegacyHeaders(store.pat)))
              && FilesOf(c.value.gists, c.value.id).Some?
    // saved: the container holds what it held before, overlaid with the chunks and the index
    ensures var c := old(LegacyContainer(store, service, json, now, newId));
            r.Ok? ==>
              && store.gistId == c.value.id
              && prior == FilesOf(c.value.gists, c.value.id).value
              && service.gists == Patched(c.value.gists, c.value.id, EncodeFiles(json, d, now))
    ensures r.Ok? ==> store.gistId != "" && FilesOf(service.gists, store.gistId) == Some(prior + EncodeFiles(json, d, now))
    // whatever the outcome, the lookup's container is cached and only the lookup and the PATCH touch the account
    ensures var c := old(LegacyContainer(store, service, json, now, newId));
            && (c.Ok? ==> store.gistId == c.value.id)
            && (c.Err? ==> store.gistId == "")
            && service.gists == if r.Ok? then Patched(c.value.gists, c.value.id, EncodeFiles(json, d, now))
                                else if c.Ok? then c.value.gists
                                else old(service.gists)
  {
    prior := map[];
    var h := Some(LegacyHeaders(store.pat));
    var id := GetGistId(store, service, json, now, newId);
    if id.Err? {
      return Err(id.error), prior;
    }
    var chunks := SplitChunks(json.stringify(d));
    var files := ChunkFiles(chunks);
    files := files[IndexName := json.stringifyIndex(now, PartNames(|chunks|))];
    ghost var before := service.gists;
    if FilesOf(before, id.value).Some? {
      prior := FilesOf(before, id.value).value;
    }
    var patched := service.Patch(h, id.value, files);
    if patched.Err? {
      return Err(patched.error), prior;
    }
    PatchedFiles(before, id.value, files, id.value);
    return Ok(true), prior;
  }

  /**
   * loadFromGist: the container's files decoded by the strict rules, with no shape
   * normalisation. `read` is the file map the GET returned.
   */
  method LoadFromGist(store: LocalStore, service: GistService, json: JsonCodec, now: Timestamp, newId: string)
    returns (r: Result<Parsed>, ghost read: Option<map<string, string>>)
    requires store.gistId == "" ==> service.FreshId(newId)
    modifies store, service
    ensures store.pat == old(store.pat) && store.groups == old(store.groups) && store.lastSync == old(store.lastSync)
    ensures service.token == old(service.token) && service.down == old(service.down)
    // the answer is LegacyLoaded's
    ensures r == old(LegacyLoaded(store, service, json, now, newId))
    // the GET happens and returns the container's content exactly when the lookup succeeds and the GET goes through
    ensures var c := old(LegacyContainer(store, service, json, now, newId));
            read.Some? <==>
              && c.Ok? && GetGist !in service.down && Authorizes(service.token, Some(LegacyHeaders(store.pat)))
              && FilesOf(c.value.gists, c.value.id).Some?
    ensures read.Some? ==> FilesOf(service.gists, store.gistId) == read && r == DecodeStrict(json, read.value)
    // the store and the service are left on the lookup's container; the load itself only reads
    ensures var c := old(LegacyContainer(store, service, json, now, newId));
            && (c.Ok? ==> store.gistId == c.value.id && service.gists == c.value.gists)
            && (c.Err? ==> store.gistId == "" && service.gists == old(service.gists))
    ensures read.None? ==> r.Err?
    // on a first run the container is created and read back at once, and that read fails
    ensures old(store.gistId) == "" && LawfulJson(json) ==> r.Err?
  {
    ghost var first := store.gistId == "" && LawfulJson(json);
    if first {
      LegacyFirstRunFails(store, service, json, now, newId);
    }
    read := None;
    var h := Some(LegacyHeaders(store.pat));
    var id := GetGistId(store, service, json, now, newId);
    if id.Err? {
      return Err(id.error), read;
    }
    var fetched := service.Fetch(h, id.value);
    if fetched.Err? {
      return Err(fetched.error), read;
    }
    var files := fetched.value;
    read := Some(files);
    if IndexName !in files {
      return Err(TypeError), read;
    }
    var index := json.parseIndex(files[IndexName]);
    if index.Err? {
      return Err(index.error), read;
    }
    var data := ReassembleStrict(files, index.value);
    if data.Err? {
      return Err(data.error), read;
    }
    r := json.parse(data.value);
  }
}
