/**
 * The sync engine of src/lib/storage.js: credentials, lookup-or-create of the container
 * gist, chunked save, tolerant load, and the sync sequence that merges both sides.
 */
module Storage {
  import opened Wrappers
  import opened Groups
  import opened Text
  import opened Chunking
  import opened Format
  import opened Merge
  import opened Platform

  /** getAuthHeaders: null when no token is configured (an absent or empty `pat`). */
  function AuthHeaders(pat: Option<string>): Option<Headers> {
    if pat.None? || pat.value == "" then None else Some(Headers("token " + pat.value))
  }

  /** The built headers are accepted exactly when a token is configured and it is the server's. */
  lemma AuthHeadersAccepted(token: string, pat: Option<string>)
    ensures Authorizes(token, AuthHeaders(pat)) <==> pat == Some(token) && token != ""
  {
    if Authorizes(token, AuthHeaders(pat)) {
      var p := pat.value;
      assert ("token " + p)[6..] == p;
      assert ("token " + token)[6..] == token;
    }
  }

  /** What the listing step of getGistId finds: the first gist carrying the sync description. */
  function Discovered(gists: seq<Gist>, token: string, down: set<Call>, pat: Option<string>): Option<Gist> {
    if ListGists !in down && Authorizes(token, AuthHeaders(pat)) then FindByDescription(gists, SyncDescription)
    else None
  }

  /**
   * The container getGistId settles on, from the state before it: the cached id; else
   * the first gist the listing finds described as the sync gist; else, with a token, a
   * gist created under `newId` with an empty index. Err when that creation fails; id ""
   * (null) without a token.
   */
  function ContainerFor(store: LocalStore, service: GistService, json: JsonCodec, now: Timestamp, newId: string)
    : Result<Container>
    reads store, service
  {
    if store.gistId != "" then Ok(Container(store.gistId, service.gists))
    else match Discovered(service.gists, service.token, service.down, store.pat)
      case Some(found) => Ok(Container(found.id, service.gists))
      case None =>
        if AuthHeaders(store.pat).None? then Ok(Container("", service.gists))
        else if CreateGist in service.down || !Authorizes(service.token, AuthHeaders(store.pat)) then Err(NetworkError)
        else Ok(Container(newId, service.gists + [Gist(newId, SyncDescription, false, InitialFiles(json, now))]))
  }

  /**
   * What loadFromGist answers, from the state before it: `{groups: []}` without a token
   * or a container, the lookup's error, a failed GET, or the container's files decoded
   * by the tolerant rules.
   */
  function Loaded(store: LocalStore, service: GistService, json: JsonCodec, now: Timestamp, newId: string)
    : Result<Document>
    reads store, service
  {
    var h := AuthHeaders(store.pat);
    if h.None? then Ok(EmptyDocument)
    else match ContainerFor(store, service, json, now, newId)
      case Err(e) => Err(e)
      case Ok(c) =>
        if c.id == "" then Ok(EmptyDocument)
        else if GetGist in service.down || !Authorizes(service.token, h) || FilesOf(c.gists, c.id).None? then Err(NetworkError)
        else DecodeFiles(json, FilesOf(c.gists, c.id).value)
  }

  /**
   * With a cached id, the load succeeds exactly when the GET does and the files decode.
   * This unfolds `Loaded` and `ContainerFor` for the cached case.
   */
  lemma LoadedCached(store: LocalStore, service: GistService, json: JsonCodec, now: Timestamp, newId: string)
    requires store.HasToken() && store.gistId != ""
    ensures var files := FilesOf(service.gists, store.gistId);
            && (Loaded(store, service, json, now, newId).Ok? <==>
                  GetGist !in service.down && Authorizes(service.token, AuthHeaders(store.pat))
                  && files.Some? && DecodeFiles(json, files.value).Ok?)
            && (Loaded(store, service, json, now, newId).Ok? ==>
                  Loaded(store, service, json, now, newId) == DecodeFiles(json, files.value))
  {
  }

  /**
   * On a first run that finds no sync gist, the load creates the container and reads it
   * back as `{groups: []}`.
   */
  lemma LoadedFirstRun(store: LocalStore, service: GistService, json: JsonCodec, now: Timestamp, newId: string)
    requires LawfulJson(json) && service.FreshId(newId)
    requires store.gistId == "" && Discovered(service.gists, service.token, service.down, store.pat).None?
    requires Authorizes(service.token, AuthHeaders(store.pat)) && CreateGist !in service.down && GetGist !in service.down
    ensures Loaded(store, service, json, now, newId) == Ok(EmptyDocument)
  {
    FilesOfFresh(service.gists, Gist(newId, SyncDescription, false, InitialFiles(json, now)));
    FreshContainerIsEmpty(json, now);
  }

  /** createGist: null without a token; otherwise a new private gist holding an empty index. */
  method CreateSyncGist(store: LocalStore, service: GistService, json: JsonCodec, now: Timestamp, newId: string)
    returns (r: Result<string>)
    requires service.FreshId(newId)
    modifies service
    ensures service.token == old(service.token) && service.down == old(service.down)
    ensures !store.HasToken() ==> r == Ok("") && unchanged(service)
    ensures store.HasToken() ==> service.log == old(service.log) + [CreateGist]
    ensures r.Err? <==> store.HasToken() && (CreateGist in service.down || !Authorizes(service.token, AuthHeaders(store.pat)))
    ensures r.Err? ==> r.error == NetworkError
    ensures store.HasToken() && r.Ok? ==>
              r.value == newId && service.gists == old(service.gists) + [Gist(newId, SyncDescription, false, InitialFiles(json, now))]
    ensures !(store.HasToken() && r.Ok?) ==> service.gists == old(service.gists)
  {
    var h := AuthHeaders(store.pat);
    if h.None? {
      return Ok("");
    }
    r := service.Create(h, SyncDescription, InitialFiles(json, now), newId);
  }

  /**
   * getGistId with its failure reported: the cached id; else the first gist described as
   * the sync gist, cached; else a newly created one, cached. A failed listing falls
   * through to creation; a failed creation is an error. The result "" stands for null.
   */
  method GetGistId(store: LocalStore, service: GistService, json: JsonCodec, now: Timestamp, newId: string)
    returns (r: Result<string>)
    requires store.gistId == "" ==> service.FreshId(newId)
    modifies store, service
    ensures store.pat == old(store.pat) && store.groups == old(store.groups) && store.lastSync == old(store.lastSync)
    ensures service.token == old(service.token) && service.down == old(service.down)
    // the lookup settles on ContainerFor's container, and caches it
    ensures var c := old(ContainerFor(store, service, json, now, newId));
            && (r.Ok? <==> c.Ok?)
            && (r.Ok? ==> r.value == c.value.id && store.gistId == r.value && service.gists == c.value.gists)
            && (r.Err? ==> r.error == NetworkError && store.gistId == "" && service.gists == old(service.gists))
    // a cached id is returned without any request
    ensures old(store.gistId) != "" ==> unchanged(store) && unchanged(service)
    // otherwise the listing comes first, and creation only when it found nothing and a token is set
    ensures old(store.gistId) == "" ==>
              service.log == old(service.log) + [ListGists]
                             + (if old(Discovered(service.gists, service.token, service.down, store.pat)).None?
                                   && store.HasToken() then [CreateGist] else [])
  {
    if store.gistId != "" {
      return Ok(store.gistId);
    }
    var h := AuthHeaders(store.pat);
    var listed := service.List(h);
    if listed.Ok? {
      var found := FindByDescription(listed.value, SyncDescription);
      if found.Some? {
        store.gistId := found.value.id;
        return Ok(found.value.id);
      }
    }
    var created := CreateSyncGist(store, service, json, now, newId);
    if created.Err? {
      return Err(created.error);
    }
    if created.value == "" {
      return Ok("");
    }
    store.gistId := created.value;
    return Ok(created.value);
  }

  /**
   * getGistId as written: `createGist` is awaited inside the storage callback and its
   * rejection is not caught there, so `resolve` is never reached and the promise stays
   * pending for ever.
   */
  method GetGistIdAsWritten(store: LocalStore, service: GistService, json: JsonCodec, now: Timestamp, newId: string)
    returns (s: Settlement<string>)
    requires store.gistId == "" ==> service.FreshId(newId)
    modifies store, service
    ensures store.pat == old(store.pat) && service.token == old(service.token) && service.down == old(service.down)
    // pending exactly when the corrected lookup fails: a first run, nothing found, a token,
    // and the creation refused
    ensures s == Pending <==>
              && old(store.gistId) == "" && old(Discovered(service.gists, service.token, service.down, store.pat)).None?
              && store.HasToken()
              && (CreateGist in service.down || !Authorizes(service.token, AuthHeaders(store.pat)))
    // otherwise it settles on ContainerFor's container
    ensures var c := old(ContainerFor(store, service, json, now, newId));
            s.Resolved? ==> c.Ok? && s.value == c.value.id && store.gistId == s.value && service.gists == c.value.gists
  {
    if store.gistId != "" {
      return Resolved(store.gistId);
    }
    var h := AuthHeaders(store.pat);
    var listed := service.List(h);
    if listed.Ok? {
      var found := FindByDescription(listed.value, SyncDescription);
      if found.Some? {
        store.gistId := found.value.id;
        return Resolved(found.value.id);
      }
    }
    var created := CreateSyncGist(store, service, json, now, newId);
    if created.Err? {
      return Pending;
    }
    if created.value == "" {
      return Resolved("");
    }
    store.gistId := created.value;
    return Resolved(created.value);
  }

  /**
   * A first run against an account whose create endpoint fails: the promise as written
   * never settles, while the corrected lookup reports the error.
   */
  method FirstLookupWithCreateDown(json: JsonCodec) returns (s: Settlement<string>, r: Result<string>)
    ensures s == Pending
    ensures r.Err?
  {
    var store := new LocalStore(Some("secret"), "", [], None);
    var service := new GistService([], "secret", {CreateGist});
    AuthHeadersAccepted("secret", Some("secret"));
    s := GetGistIdAsWritten(store, service, json, 0, "g1");
    var store2 := new LocalStore(Some("secret"), "", [], None);
    var service2 := new GistService([], "secret", {CreateGist});
    r := GetGistId(store2, service2, json, 0, "g1");
  }

  /**
   * saveToGist: false without a token or a container; otherwise the document's chunks and
   * the index that lists them are PATCHed into the container. Failures are rethrown.
   * `prior` is what the container held before the PATCH.
   */
  method SaveToGist(store: LocalStore, service: GistService, json: JsonCodec, d: Document, now: Timestamp, newId: string)
    returns (r: Result<bool>, ghost prior: map<string, string>)
    requires store.gistId == "" ==> service.FreshId(newId)
    modifies store, service
    ensures store.pat == old(store.pat) && store.groups == old(store.groups) && store.lastSync == old(store.lastSync)
    ensures service.token == old(service.token) && service.down == old(service.down)
    ensures old(store.gistId) != "" ==> store.gistId == old(store.gistId)
    // no token: nothing is sent
    ensures !old(store.HasToken()) ==> r == Ok(false) && unchanged(store) && unchanged(service)
    // false exactly without a token or a container
    ensures var c := old(ContainerFor(store, service, json, now, newId));
            r == Ok(false) <==> !old(store.HasToken()) || (c.Ok? && c.value.id == "")
    ensures r == Ok(false) ==> service.gists == old(service.gists)
    // saved exactly when the container is there and the PATCH goes through
    ensures var c := old(ContainerFor(store, service, json, now, newId));
            r == Ok(true) <==>
              && old(store.HasToken()) && c.Ok? && c.value.id != ""
              && PatchGist !in service.down && Authorizes(service.token, AuthHeaders(store.pat))
              && FilesOf(c.value.gists, c.value.id).Some?
    // saved: the container holds what it held before, overlaid with the chunks and the index
    ensures var c := old(ContainerFor(store, service, json, now, newId));
            r == Ok(true) ==>
              && store.gistId == c.value.id
              && prior == FilesOf(c.value.gists, c.value.id).value
              && service.gists == Patched(c.value.gists, c.value.id, EncodeFiles(json, d, now))
    ensures r == Ok(true) ==>
              store.gistId != "" && FilesOf(service.gists, store.gistId) == Some(prior + EncodeFiles(json, d, now))
    ensures r == Ok(true) ==> forall id :: id != store.gistId && FilesOf(old(service.gists), id).Some? ==>
              FilesOf(service.gists, id) == FilesOf(old(service.gists), id)
    // whatever the outcome, the lookup's container is cached and only the lookup and the PATCH touch the account
    ensures var c := old(ContainerFor(store, service, json, now, newId));
            && (old(store.HasToken()) && c.Ok? ==> store.gistId == c.value.id)
            && (old(store.HasToken()) && c.Err? ==> store.gistId == "")
            && service.gists == if r == Ok(true) then Patched(c.value.gists, c.value.id, EncodeFiles(json, d, now))
                                else if old(store.HasToken()) && c.Ok? then c.value.gists
                                else old(service.gists)
  {
    prior := map[];
    var h := AuthHeaders(store.pat);
    if h.None? {
      return Ok(false), prior;
    }
    var id := GetGistId(store, service, json, now, newId);
    if id.Err? {
      return Err(id.error), prior;
    }
    if id.value == "" {
      return Ok(false), prior;
    }
    var chunks := SplitChunks(json.stringify(d));
    var files := ChunkFiles(chunks);
    files := files[IndexName := json.stringifyIndex(now, PartNames(|chunks|))];
    ghost var before := service.gists;
    if FilesOf(before, id.value).Some? {
      prior := FilesOf(before, id.value).value;
    }
    var patched := service.Patch(h, id.value, files);
    if patched.Err? {
      return Err(patched.error), prior;
    }
    PatchedFiles(before, id.value, files, id.value);
    forall other | other != id.value && FilesOf(old(service.gists), other).Some?
      ensures FilesOf(service.gists, other) == FilesOf(old(service.gists), other)
    {
      PatchedFiles(before, id.value, files, other);
      if before != old(service.gists) {
        FilesOfSnoc(old(service.gists), Gist(newId, SyncDescription, false, InitialFiles(json, now)), other);
      }
    }
    return Ok(true), prior;
  }

  /**
   * loadFromGist: `{groups: []}` without a token or a container; otherwise the container's
   * files decoded by the tolerant rules. `read` is the file map the GET returned.
   */
  method LoadFromGist(store: LocalStore, service: GistService, json: JsonCodec, now: Timestamp, newId: string)
    returns (r: Result<Document>, ghost read: Option<map<string, string>>)
    requires store.gistId == "" ==> service.FreshId(newId)
    modifies store, service
    ensures store.pat == old(store.pat) && store.groups == old(store.groups) && store.lastSync == old(store.lastSync)
    ensures service.token == old(service.token) && service.down == old(service.down)
    ensures old(store.gistId) != "" ==> store.gistId == old(store.gistId) && service.gists == old(service.gists)
    ensures store.gistId == "" ==> service.gists == old(service.gists)
    // no token: nothing is sent
    ensures !old(store.HasToken()) ==> r == Ok(EmptyDocument) && read == None && unchanged(store) && unchanged(service)
    // the answer is Loaded's, and the store and the service are left on the lookup's container
    ensures r == old(Loaded(store, service, json, now, newId))
    ensures var c := old(ContainerFor(store, service, json, now, newId));
            && (c.Ok? ==> store.gistId == c.value.id && service.gists == c.value.gists)
            && (c.Err? ==> store.gistId == "" && service.gists == old(service.gists))
    // what was fetched is the container's content
    ensures var c := old(ContainerFor(store, service, json, now, newId));
            read.Some? <==> old(store.HasToken()) && c.Ok? && c.value.id != "" && GetGist !in service.down
                            && Authorizes(service.token, AuthHeaders(store.pat)) && FilesOf(c.value.gists, c.value.id).Some?
    ensures read.Some? ==> store.gistId != "" && FilesOf(service.gists, store.gistId) == read
                           && r == DecodeFiles(json, read.value)
  {
    read := None;
    var h := AuthHeaders(store.pat);
    if h.None? {
      return Ok(EmptyDocument), read;
    }
    var id := GetGistId(store, service, json, now, newId);
    if id.Err? {
      return Err(id.error), read;
    }
    if id.value == "" {
      return Ok(EmptyDocument), read;
    }
    var fetched := service.Fetch(h, id.value);
    if fetched.Err? {
      return Err(fetched.error), read;
    }
    var files := fetched.value;
    read := Some(files);
    if IndexName !in files || IsBlank(files[IndexName]) {
      return Ok(EmptyDocument), read;
    }
    var index := json.parseIndex(files[IndexName]);
    if index.Err? {
      return Err(index.error), read;
    }
    var data := Reassemble(files, index.value);
    if IsBlank(data) {
      return Ok(EmptyDocument), read;
    }
    var parsed := json.parse(data);
    if parsed.Err? {
      return Err(parsed.error), read;
    }
    return Normalise(parsed.value), read;
  }

  /** The serialised document splits into chunks none of which is whitespace only. */
  ghost predicate NoBlankChunk(json: JsonCodec, d: Document) {
    forall c :: c in Chunks(json.stringify(d)) ==> !IsBlank(c)
  }

  /**
   * syncWithGist: token check, load the remote document, merge, write the merged list and
   * `now` locally, then save remotely. `remote` is the group list the load returned;
   * `saved` tells whether the remote write happened.
   */
  method SyncWithGist(store: LocalStore, service: GistService, json: JsonCodec, now: Timestamp, newId: string)
    returns (ok: bool, ghost remote: Option<seq<Group>>, ghost saved: bool)
    requires store.gistId == "" ==> service.FreshId(newId)
    modifies store, service
    ensures store.pat == old(store.pat)
    ensures service.token == old(service.token) && service.down == old(service.down)
    // no token: skipped before any request
    ensures !old(store.HasToken()) ==> !ok && remote == None && unchanged(store) && unchanged(service)
    // the load's answer decides whether there is a remote list, and which
    ensures var loaded := old(Loaded(store, service, json, now, newId));
            old(store.HasToken()) ==>
              && (remote.Some? <==> loaded.Ok?)
              && (remote.Some? ==> remote.value == loaded.value.groups)
    // a failed load leaves the local data unwritten
    ensures remote.None? ==> !ok && store.groups == old(store.groups) && store.lastSync == old(store.lastSync)
    // a successful load writes the merge and `now` locally, whatever the save does next
    ensures remote.Some? ==> store.groups == Merged(old(store.groups), remote.value) && store.lastSync == Some(now)
    // the save happens exactly when the container is there and the PATCH goes through;
    // the sync then reports success, and also when there is no container to save to
    ensures var c := old(ContainerFor(store, service, json, now, newId));
            saved <==>
              && remote.Some? && c.Ok? && c.value.id != ""
              && PatchGist !in service.down && Authorizes(service.token, AuthHeaders(store.pat))
              && FilesOf(c.value.gists, c.value.id).Some?
    ensures var c := old(ContainerFor(store, service, json, now, newId));
            ok <==> remote.Some? && (saved || c.value.id == "")
    // the remote write is of the same merged list and `now`, over what the container held
    ensures var c := old(ContainerFor(store, service, json, now, newId));
            saved ==> store.gistId == c.value.id
                      && FilesOf(service.gists, store.gistId)
                         == Some(FilesOf(c.value.gists, c.value.id).value
                                 + EncodeFiles(json, Document(store.groups, Some(now)), now))
    // the lookup's container is cached; the account changes only by the lookup's creation and the PATCH
    ensures var c := old(ContainerFor(store, service, json, now, newId));
            && (old(store.HasToken()) && c.Ok? ==> store.gistId == c.value.id)
            && (!old(store.HasToken()) || c.Err? ==> store.gistId == old(store.gistId))
            && service.gists == if saved then Patched(c.value.gists, c.value.id, EncodeFiles(json, Document(store.groups, Some(now)), now))
                                else if old(store.HasToken()) && c.Ok? then c.value.gists
                                else old(service.gists)
    // and the next load reads it back
    ensures saved && LawfulJson(json) && NoBlankChunk(json, Document(store.groups, Some(now))) ==>
              DecodeFiles(json, FilesOf(service.gists, store.gistId).value) == Ok(Document(store.groups, Some(now)))
  {
    remote, saved := None, false;
    if !store.HasToken() {
      return false, remote, saved;
    }
    var localGroups := store.groups;
    var loaded, read := LoadFromGist(store, service, json, now, newId);
    if loaded.Err? {
      return false, remote, saved;
    }
    remote := Some(loaded.value.groups);
    var finalGroups := MergeGroups(localGroups, loaded.value.groups);
    store.groups := finalGroups;
    store.lastSync := Some(now);
    var d := Document(finalGroups, Some(now));
    var written, prior := SaveToGist(store, service, json, d, now, newId);
    if written.Err? {
      return false, remote, saved;
    }
    saved := written.value;
    if saved && LawfulJson(json) && NoBlankChunk(json, d) {
      SaveLoadRoundTrip(json, d, now, prior);
    }
    return true, remote, saved;
  }
}
