/**
 * The two stores the sync engine talks to: the extension's local key-value storage and
 * the Gist REST API. Both are modelled as objects whose fields the engine's calls update.
 */
module Platform {
  import opened Wrappers
  import opened Groups

  /** The request headers the engine builds (`Content-Type` is constant and left implicit). */
  datatype Headers = Headers(authorization: string)

  /** The description that marks the extension's own gist. */
  const SyncDescription: string := "OneTabCloud Sync Data"

  /** One gist: its id, its description and its files (file name to content). */
  datatype Gist = Gist(id: string, description: string, public: bool, files: map<string, string>)

  /** How a promise ends: settled with a value, or never. */
  datatype Settlement<T> = Resolved(value: T) | Pending

  /** The container a lookup settles on: its id ("" for none) and the gist list after the lookup. */
  datatype Container = Container(id: string, gists: seq<Gist>)

  /** The endpoints the engine calls. */
  datatype Call = ListGists | CreateGist | GetGist | PatchGist

  /** The server accepts exactly the header `token <its token>`. */
  predicate Authorizes(token: string, h: Option<Headers>) {
    h == Some(Headers("token " + token))
  }

  /** Index of the first gist with the given id. */
  function GistIndex(gists: seq<Gist>, id: string): (r: Option<nat>)
    ensures r.Some? ==> r.value < |gists| && gists[r.value].id == id
    ensures r.Some? ==> forall j :: 0 <= j < r.value ==> gists[j].id != id
    ensures r.None? <==> forall j :: 0 <= j < |gists| ==> gists[j].id != id
  {
    if |gists| == 0 then None
    else if gists[0].id == id then Some(0)
    else match GistIndex(gists[1..], id)
      case Some(i) => Some(i + 1)
      case None => None
  }

  /** The files of the gist with the given id, if there is one. */
  function FilesOf(gists: seq<Gist>, id: string): Option<map<string, string>> {
    match GistIndex(gists, id)
    case Some(i) => Some(gists[i].files)
    case None => None
  }

  /** A gist appended under an id no earlier gist has is the one that id names. */
  lemma FilesOfFresh(gists: seq<Gist>, g: Gist)
    requires forall j :: 0 <= j < |gists| ==> gists[j].id != g.id
    ensures FilesOf(gists + [g], g.id) == Some(g.files)
  {
    var all := gists + [g];
    assert all[|gists|].id == g.id;
    assert forall j :: 0 <= j < |gists| ==> all[j].id != g.id;
  }

  /** Appending a gist does not change what the earlier ids name. */
  lemma {:induction false} FilesOfSnoc(gists: seq<Gist>, g: Gist, id: string)
    requires FilesOf(gists, id).Some?
    ensures FilesOf(gists + [g], id) == FilesOf(gists, id)
    decreases |gists|
  {
    if gists[0].id != id {
      assert (gists + [g])[1..] == gists[1..] + [g];
      FilesOfSnoc(gists[1..], g, id);
    }
  }

  /** The gist list after a PATCH of `files` into gist `id`: named files are replaced or added. */
  function Patched(gists: seq<Gist>, id: string, files: map<string, string>): (r: seq<Gist>)
    ensures |r| == |gists|
  {
    match GistIndex(gists, id)
    case Some(i) => gists[i := gists[i].(files := gists[i].files + files)]
    case None => gists
  }

  /** After a PATCH the gist holds its old files overlaid with the sent ones; other gists read as before. */
  lemma PatchedFiles(gists: seq<Gist>, id: string, files: map<string, string>, other: string)
    requires FilesOf(gists, id).Some?
    ensures FilesOf(Patched(gists, id, files), id) == Some(FilesOf(gists, id).value + files)
    ensures other != id ==> FilesOf(Patched(gists, id, files), other) == FilesOf(gists, other)
  {
    var i := GistIndex(gists, id).value;
    var p := Patched(gists, id, files);
    assert forall j :: 0 <= j < |p| ==> p[j].id == gists[j].id;
    GistIndexSameIds(gists, p, id);
    GistIndexSameIds(gists, p, other);
  }

  lemma {:induction false} GistIndexSameIds(a: seq<Gist>, b: seq<Gist>, id: string)
    requires |a| == |b| && forall j :: 0 <= j < |a| ==> a[j].id == b[j].id
    ensures GistIndex(a, id) == GistIndex(b, id)
    decreases |a|
  {
    if |a| > 0 && a[0].id != id {
      GistIndexSameIds(a[1..], b[1..], id);
    }
  }

  /** `gists.find(g => g.description === description)`: the first gist with that description. */
  function FindByDescription(gists: seq<Gist>, description: string): (r: Option<Gist>)
    ensures r.None? <==> forall j :: 0 <= j < |gists| ==> gists[j].description != description
    ensures r.Some? ==> exists i :: 0 <= i < |gists| && gists[i] == r.value
                                    && gists[i].description == description
                                    && forall j :: 0 <= j < i ==> gists[j].description != description
  {
    if |gists| == 0 then None
    else if gists[0].description == description then Some(gists[0])
    else
      var r := FindByDescription(gists[1..], description);
      if r.Some? then
        var i :| 0 <= i < |gists[1..]| && gists[1..][i] == r.value
                 && gists[1..][i].description == description
                 && forall j :: 0 <= j < i ==> gists[1..][j].description != description;
        assert gists[i + 1] == r.value;
        r
      else r
  }

  /** `chrome.storage.local`, restricted to the keys the sync engine uses. */
  class LocalStore {
    /** The personal access token; None when the key is absent. */
    var pat: Option<string>
    /** The cached container id; "" when absent. */
    var gistId: string
    /** The stored group list; an absent or non-array value reads as []. */
    var groups: seq<Group>
    var lastSync: Option<Timestamp>

    constructor(pat: Option<string>, gistId: string, groups: seq<Group>, lastSync: Option<Timestamp>)
      ensures this.pat == pat && this.gistId == gistId
      ensures this.groups == groups && this.lastSync == lastSync
    {
      this.pat := pat;
      this.gistId := gistId;
      this.groups := groups;
      this.lastSync := lastSync;
    }

    /** `result.pat` is truthy. */
    predicate HasToken()
      reads this
    {
      pat.Some? && pat.value != ""
    }
  }

  /**
   * The Gist REST API as one account sees it. `down` names the endpoints that fail (a
   * network error or an HTTP error status, which axios rejects alike); `log` records
   * every request in order.
   */
  class GistService {
    var gists: seq<Gist>
    var token: string
    var down: set<Call>
    var log: seq<Call>

    constructor(gists: seq<Gist>, token: string, down: set<Call>)
      ensures this.gists == gists && this.token == token && this.down == down && log == []
    {
      this.gists := gists;
      this.token := token;
      this.down := down;
      log := [];
    }

    /** An id the server may hand out for a new gist. */
    predicate FreshId(id: string)
      reads this
    {
      id != "" && forall j :: 0 <= j < |gists| ==> gists[j].id != id
    }

    /** GET /gists. */
    method List(h: Option<Headers>) returns (r: Result<seq<Gist>>)
      modifies this
      ensures gists == old(gists) && token == old(token) && down == old(down)
      ensures log == old(log) + [ListGists]
      ensures r.Ok? <==> ListGists !in down && Authorizes(token, h)
      ensures r.Ok? ==> r.value == gists
    {
      log := log + [ListGists];
      if ListGists in down || !Authorizes(token, h) {
        return Err(NetworkError);
      }
      return Ok(gists);
    }

    /** POST /gists: a new private gist with the given description and files. */
    method Create(h: Option<Headers>, description: string, files: map<string, string>, newId: string)
      returns (r: Result<string>)
      requires FreshId(newId)
      modifies this
      ensures token == old(token) && down == old(down)
      ensures log == old(log) + [CreateGist]
      ensures r.Ok? <==> CreateGist !in down && Authorizes(token, h)
      ensures r.Ok? ==> r.value == newId && gists == old(gists) + [Gist(newId, description, false, files)]
      ensures r.Err? ==> r.error == NetworkError && gists == old(gists)
    {
      log := log + [CreateGist];
      if CreateGist in down || !Authorizes(token, h) {
        return Err(NetworkError);
      }
      gists := gists + [Gist(newId, description, false, files)];
      return Ok(newId);
    }

    /** GET /gists/{id}: the gist's files; an unknown id is a 404. */
    method Fetch(h: Option<Headers>, id: string) returns (r: Result<map<string, string>>)
      modifies this
      ensures gists == old(gists) && token == old(token) && down == old(down)
      ensures log == old(log) + [GetGist]
      ensures r.Ok? <==> GetGist !in down && Authorizes(token, h) && FilesOf(gists, id).Some?
      ensures r.Ok? ==> Some(r.value) == FilesOf(gists, id)
      ensures r.Err? ==> r.error == NetworkError
    {
      log := log + [GetGist];
      var files := FilesOf(gists, id);
      if GetGist in down || !Authorizes(token, h) || files.None? {
        return Err(NetworkError);
      }
      return Ok(files.value);
    }

    /** PATCH /gists/{id} with `{ files }`. */
    method Patch(h: Option<Headers>, id: string, files: map<string, string>) returns (r: Result<()>)
      modifies this
      ensures token == old(token) && down == old(down)
      ensures log == old(log) + [PatchGist]
      ensures r.Ok? <==> PatchGist !in down && Authorizes(token, h) && FilesOf(old(gists), id).Some?
      ensures r.Ok? ==> gists == Patched(old(gists), id, files)
      ensures r.Err? ==> r.error == NetworkError && gists == old(gists)
    {
      log := log + [PatchGist];
      if PatchGist in down || !Authorizes(token, h) || FilesOf(gists, id).None? {
        return Err(NetworkError);
      }
      gists := Patched(gists, id, files);
      return Ok(());
    }
  }
}
