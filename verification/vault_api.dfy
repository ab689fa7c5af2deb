/**
 * The Vault client (`VaultAPI`): request construction for the KV version 2
 * secrets engine, envelope unwrapping, and the recursive listing of secret paths.
 *
 * The network is a finite map from requests to the JSON each one answers with.
 * A request that is not in the map stands for every failure the transport
 * swallows (a refused connection, a TLS error, a non-ok status): the transport
 * methods turn all of them into `null`.
 */
module VaultApi {
  import opened Wrappers
  import opened Seqs
  import opened Json
  import opened Text

  /** A `VaultAPI` instance: its three fields are read-only. */
  datatype Client = Client(url: string, token: string, ignoreSsl: bool)

  datatype Method = GET | LIST | POST | DELETE

  /**
   * One HTTP request: the full URL, the `X-Vault-Token` header, whether the TLS
   * agent rejects unauthorised certificates, and the JSON body if any.
   */
  datatype HttpRequest = HttpRequest(
    verb: Method,
    url: string,
    vaultToken: string,
    rejectUnauthorized: bool,
    body: Option<Json>)

  /** The answers the store gives, as parsed JSON, to the requests it answers successfully. */
  type Network = map<HttpRequest, Json>

  /** An error the JavaScript code throws rather than catches. */
  datatype JsError = TypeError

  /** `_getRequest`, `_postRequest` and `_deleteRequest` all build the request the same way. */
  function Build(c: Client, m: Method, endpoint: string, body: Option<Json>): (r: HttpRequest)
    ensures r.verb == m && r.body == body
    ensures StartsWith(r.url, c.url) && r.url[|c.url|..] == endpoint
    ensures FromClient(c, r)
  {
    HttpRequest(m, c.url + endpoint, c.token, !c.ignoreSsl, body)
  }

  /** A request goes to the client's server with the client's token and TLS setting. */
  predicate FromClient(c: Client, req: HttpRequest) {
    StartsWith(req.url, c.url) && req.vaultToken == c.token && req.rejectUnauthorized == !c.ignoreSsl
  }

  /** Sending a request: the parsed JSON of an ok response, or `null` for every failure. */
  function Send(net: Network, req: HttpRequest): (r: Option<Json>)
    ensures r.Some? <==> req in net
    ensures r.Some? ==> r.value == net[req]
  {
    if req in net then Some(net[req]) else None
  }

  // ---------------------------------------------------------------- getSecret

  function GetSecretRequest(c: Client, secretPath: string): HttpRequest {
    Build(c, GET, "/v1/" + secretPath, None)
  }

  /**
   * What `getSecret` returns for a response: `{}` when there is none (or it is
   * falsy), otherwise `data.data?.data || data.data`. `None` is `undefined`.
   */
  function SecretOf(data: Option<Json>): (r: Option<Json>)
    ensures !Defined(data) ==> r == Some(EmptyObject)
    ensures Defined(data) && Member(data.value, "data").None? ==> r.None?
  {
    if !Defined(data) then Some(EmptyObject)
    else
      var outer := Member(data.value, "data");
      var inner := if outer.None? || outer.value.Null? then None else Member(outer.value, "data");
      if Defined(inner) then inner else outer
  }

  function GetSecret(c: Client, net: Network, secretPath: string): (r: Option<Json>)
    ensures var req := GetSecretRequest(c, secretPath);
            req !in net || !Truthy(net[req]) ==> r == Some(EmptyObject)
    ensures var req := GetSecretRequest(c, secretPath);
            req in net && Truthy(net[req]) && Member(net[req], "data").None? ==> r.None?
    ensures var req := GetSecretRequest(c, secretPath);
            req in net && Member(net[req], "data").Some? ==>
              var outer := Member(net[req], "data").value;
              (Defined(Member(outer, "data")) ==> r == Member(outer, "data")) &&
              (!Defined(Member(outer, "data")) ==> r == Some(outer))
  {
    SecretOf(Send(net, GetSecretRequest(c, secretPath)))
  }

  /** A versioned (KV version 2) envelope yields the innermost document. */
  lemma ReadVersioned(envelope: map<string, Json>, payload: map<string, Json>)
    requires "data" in envelope && envelope["data"] == Obj(payload)
    requires "data" in payload && Truthy(payload["data"])
    ensures SecretOf(Some(Obj(envelope))) == Some(payload["data"])
  {
  }

  /** An unversioned envelope, or one whose inner `data` is falsy, yields the outer `data`. */
  lemma ReadUnversioned(envelope: map<string, Json>, payload: map<string, Json>)
    requires "data" in envelope && envelope["data"] == Obj(payload)
    requires "data" !in payload || !Truthy(payload["data"])
    ensures SecretOf(Some(Obj(envelope))) == Some(Obj(payload))
  {
  }

  // ------------------------------------------------------------- removeSecret

  const DataSegment: string := "/data/"
  const MetadataSegment: string := "/metadata/"

  /** `removeSecret` sends a DELETE after turning the first `/data/` into `/metadata/`. */
  function RemoveSecretRequest(c: Client, secretPath: string): (r: HttpRequest)
    ensures r.verb == DELETE && r.body.None?
    ensures r.vaultToken == c.token && r.rejectUnauthorized == !c.ignoreSsl
    ensures IndexOf(secretPath, DataSegment) == -1 ==> r.url == c.url + ("/v1/" + secretPath)
    ensures var i := IndexOf(secretPath, DataSegment);
            i >= 0 ==> r.url == c.url + ("/v1/" + (secretPath[..i] + MetadataSegment + secretPath[i + |DataSegment|..]))
  {
    var rewritten := ReplaceFirst(secretPath, DataSegment, MetadataSegment);
    Build(c, DELETE, "/v1/" + rewritten, None)
  }

  /**
   * No `/data/` starts inside `mount`, not even one that runs on into the
   * `/data/` that follows it. Nested mounts such as `secret/team` qualify.
   */
  predicate MountBeforeData(mount: string) {
    forall j: nat | j < |mount| :: !OccursAt(mount + DataSegment, DataSegment, j)
  }

  /** In `{mount}/data/{rest}`, the first `/data/` is the one right after the mount. */
  lemma FirstDataAfterMount(mount: string, rest: string)
    requires MountBeforeData(mount)
    ensures IndexOf(mount + DataSegment + rest, DataSegment) == |mount|
  {
    var p := mount + DataSegment + rest;
    assert OccursAt(p, DataSegment, |mount|) by {
      assert p[|mount|..|mount| + 6] == DataSegment;
    }
    forall j: nat | j < |mount| ensures !OccursAt(p, DataSegment, j) {
      assert p[j..j + 6] == (mount + DataSegment)[j..j + 6];
      assert !OccursAt(mount + DataSegment, DataSegment, j);
    }
  }

  /** A mount without a slash always qualifies. */
  lemma SlashFreeMount(mount: string)
    requires '/' !in mount
    ensures MountBeforeData(mount)
  {
    forall j: nat | j < |mount| ensures !OccursAt(mount + DataSegment, DataSegment, j) {
      assert (mount + DataSegment)[j] == mount[j];
    }
  }

  /**
   * A document path `{mount}/data/{rest}` is deleted through `{mount}/metadata/{rest}`:
   * the first `/data/` follows the mount, and any later `/data/` in `rest` is left alone.
   */
  lemma RemoveSecretOfDocumentPath(c: Client, mount: string, rest: string)
    requires MountBeforeData(mount)
    ensures RemoveSecretRequest(c, mount + DataSegment + rest).url == c.url + ("/v1/" + (mount + MetadataSegment + rest))
  {
    var p := mount + DataSegment + rest;
    FirstDataAfterMount(mount, rest);
    assert p[..|mount|] == mount;
    assert p[|mount| + |DataSegment|..] == rest;
  }

  // ------------------------------------------------------------- updateSecret

  /** `updateSecret` strips one trailing slash and POSTs `{data: document}` to `/v1/{path}`. */
  function UpdateSecretRequest(c: Client, secretPath: string, document: map<string, Json>): (r: HttpRequest)
    ensures r.verb == POST
    ensures r.url == c.url + "/v1/" + StripSlash(secretPath)
    ensures r.body == Some(Obj(map["data" := Obj(document)]))
    ensures Member(r.body.value, "data") == Some(Obj(document))
    ensures r.vaultToken == c.token && r.rejectUnauthorized == !c.ignoreSsl
  {
    Build(c, POST, "/v1/" + StripSlash(secretPath), Some(Obj(map["data" := Obj(document)])))
  }

  function UpdateSecret(c: Client, net: Network, secretPath: string, document: map<string, Json>): (r: Option<Json>)
    ensures r.Some? <==> UpdateSecretRequest(c, secretPath, document) in net
    ensures r.Some? ==> r.value == net[UpdateSecretRequest(c, secretPath, document)]
  {
    Send(net, UpdateSecretRequest(c, secretPath, document))
  }

  /** Writing and reading a path address the same URL exactly when the path has no trailing slash. */
  lemma WriteAndReadShareUrl(c: Client, secretPath: string, document: map<string, Json>)
    ensures UpdateSecretRequest(c, secretPath, document).url == GetSecretRequest(c, secretPath).url
            <==> !EndsWithSlash(secretPath)
  {
    if EndsWithSlash(secretPath) {
      assert |UpdateSecretRequest(c, secretPath, document).url| < |GetSecretRequest(c, secretPath).url|;
    }
  }

  /**
   * Round trip: when the store answers a read with the KV version 2 envelope
   * `{data: {data: D, metadata: M}}` around the document D that was written,
   * `getSecret` returns D.
   */
  lemma {:induction false} WriteThenRead(c: Client, net: Network, secretPath: string,
                                         document: map<string, Json>, metadata: Json)
    requires !EndsWithSlash(secretPath)
    requires var written := UpdateSecretRequest(c, secretPath, document).body.value;
             GetSecretRequest(c, secretPath) in net &&
             net[GetSecretRequest(c, secretPath)] ==
               Obj(map["data" := Obj(map["data" := written.fields["data"], "metadata" := metadata])])
    ensures UpdateSecretRequest(c, secretPath, document).url == GetSecretRequest(c, secretPath).url
    ensures GetSecret(c, net, secretPath) == Some(Obj(document))
  {
    WriteAndReadShareUrl(c, secretPath, document);
    var payload := map["data" := Obj(document), "metadata" := metadata];
    ReadVersioned(map["data" := Obj(payload)], payload);
  }

  // -------------------------------------------------------------- checkAccess

  /** The endpoint, under `/v1/`, that reports the token's own capabilities on given paths. */
  const CapabilitiesSelf: string := "sys/capabilities-self"

  function CheckAccessRequest(c: Client, paths: seq<string>): HttpRequest {
    Build(c, POST, "/v1/" + CapabilitiesSelf,
          Some(Obj(map["paths" := Arr(seq(|paths|, i requires 0 <= i < |paths| => Str(paths[i])))])))
  }

  /** `checkAccess`: the response's `data` member, or `{}` when there is no response. */
  function CheckAccess(c: Client, net: Network, paths: seq<string>): (r: Option<Json>)
    ensures !Defined(Send(net, CheckAccessRequest(c, paths))) ==> r == Some(EmptyObject)
    ensures var resp := Send(net, CheckAccessRequest(c, paths));
            Defined(resp) ==> r == Member(resp.value, "data")
  {
    var resp := Send(net, CheckAccessRequest(c, paths));
    if !Defined(resp) then Some(EmptyObject) else Member(resp.value, "data")
  }

  /** The capabilities request carries exactly the given paths, in order. */
  lemma CheckAccessBody(c: Client, paths: seq<string>)
    ensures var req := CheckAccessRequest(c, paths);
            req.verb == POST && req.url == c.url + ("/v1/" + CapabilitiesSelf) &&
            req.vaultToken == c.token && req.rejectUnauthorized == !c.ignoreSsl &&
            req.body.Some? && req.body.value.Obj? && req.body.value.fields.Keys == {"paths"} &&
            Member(req.body.value, "paths").Some? &&
            var sent := Member(req.body.value, "paths").value;
            sent.Arr? && |sent.items| == |paths| &&
            forall i | 0 <= i < |paths| :: sent.items[i] == Str(paths[i])
  {
  }

  /** A request to the client's Vault API: under `{url}/v1/`, with its token and TLS setting. */
  predicate SentByClient(c: Client, req: HttpRequest) {
    FromClient(c, req) && StartsWith(req.url, c.url + "/v1/")
  }

  /** A request the client builds for `/v1/{x}` is one it sends to its Vault API. */
  lemma BuiltForV1(c: Client, m: Method, x: string, body: Option<Json>)
    ensures SentByClient(c, Build(c, m, "/v1/" + x, body))
  {
    var req := Build(c, m, "/v1/" + x, body);
    assert req.url[..|c.url| + 4] == c.url + "/v1/";
  }

  /**
   * Every request the API sends goes to `/v1/...` on the client's server and
   * carries the client's token and TLS setting.
   */
  lemma RequestsCarryClientSettings(c: Client, secretPath: string, mount: string, subfolder: string,
                                    document: map<string, Json>, paths: seq<string>)
    ensures SentByClient(c, GetSecretRequest(c, secretPath))
    ensures SentByClient(c, ListRequest(c, mount, subfolder))
    ensures SentByClient(c, UpdateSecretRequest(c, secretPath, document))
    ensures SentByClient(c, RemoveSecretRequest(c, secretPath))
    ensures SentByClient(c, CheckAccessRequest(c, paths))
  {
    BuiltForV1(c, GET, secretPath, None);
    var listed := mount + "/metadata/" + subfolder + "?list=true";
    assert "/v1/" + mount + "/metadata/" + subfolder + "?list=true" == "/v1/" + listed;
    BuiltForV1(c, LIST, listed, None);
    BuiltForV1(c, POST, StripSlash(secretPath), Some(Obj(map["data" := Obj(document)])));
    BuiltForV1(c, DELETE, ReplaceFirst(secretPath, DataSegment, MetadataSegment), None);
    BuiltForV1(c, POST, CapabilitiesSelf, CheckAccessRequest(c, paths).body);
  }

  // ------------------------------------------------------------------ getList

  function ListRequest(c: Client, mount: string, subfolder: string): HttpRequest {
    Build(c, LIST, "/v1/" + mount + "/metadata/" + subfolder + "?list=true", None)
  }

  /**
   * `data.data.keys` as the sequence the `for ... of` loop iterates, or `None`
   * when that expression throws or its value is not iterable. A string is
   * iterated character by character.
   */
  function KeysOf(data: Json): (r: Option<seq<Json>>)
    ensures Member(data, "data").None? || Member(data, "data") == Some(Null) ==> r.None?
    ensures var outer := Member(data, "data");
            outer.Some? && outer.value != Null ==>
              match Member(outer.value, "keys")
              case Some(Arr(items)) => r == Some(items)
              case Some(Str(s)) => r.Some? && |r.value| == |s| && forall i | 0 <= i < |s| :: r.value[i] == Str([s[i]])
              case _ => r.None?
  {
    var outer := Member(data, "data");
    if outer.None? || outer.value.Null? then None
    else
      match Member(outer.value, "keys")
      case Some(Arr(items)) => Some(items)
      case Some(Str(s)) => Some(seq(|s|, i requires 0 <= i < |s| => Str([s[i]])))
      case _ => None
  }

  /** The answered requests whose URL is at least `n` characters long: the termination measure. */
  ghost function Longer(net: Network, n: nat): set<HttpRequest> {
    set r | r in net && |r.url| >= n
  }

  lemma LongerShrinks(net: Network, r: HttpRequest, n: nat)
    requires r in net && |r.url| < n
    ensures |Longer(net, n)| < |Longer(net, |r.url|)|
  {
    var big := Longer(net, |r.url|);
    var small := Longer(net, n);
    assert small <= big - {r};
    assert big == small + (big - small);
    assert r in big - small;
  }

  /**
   * Descending into a directory key lengthens the URL, or keeps its length while
   * the recursive call strips one more slash from the mount.
   */
  lemma DescentShrinks(c: Client, net: Network, mount: string, subfolder: string, key: string)
    requires ListRequest(c, mount, subfolder) in net && EndsWithSlash(key)
    ensures var n := |ListRequest(c, mount, subfolder).url|;
            var n' := |ListRequest(c, StripSlash(mount), subfolder + key).url|;
            n <= n' &&
            (|Longer(net, n')| < |Longer(net, n)| || (n' == n && |StripSlash(mount)| < |mount|))
  {
    var req := ListRequest(c, mount, subfolder);
    var n' := |ListRequest(c, StripSlash(mount), subfolder + key).url|;
    if |req.url| < n' {
      LongerShrinks(net, req, n');
    }
  }

  /**
   * The specification of `getList(secretPath, subfolder)`: the listing at one level,
   * with directory keys descended into and merged by set union.
   */
  function ListAt(c: Client, net: Network, secretPath: string, subfolder: string): Result<seq<string>, JsError>
    decreases |Longer(net, |ListRequest(c, StripSlash(secretPath), subfolder).url|)|, |StripSlash(secretPath)|, 1, 0
  {
    var mount := StripSlash(secretPath);
    var data := Send(net, ListRequest(c, mount, subfolder));
    if !Defined(data) then Success([])
    else
      match KeysOf(data.value)
      case None => Failure(TypeError)
      case Some(keys) => Collect(c, net, mount, subfolder, keys, |keys|)
  }

  /** The accumulator `folders` after the loop has processed `keys[..n]`. */
  function Collect(c: Client, net: Network, mount: string, subfolder: string, keys: seq<Json>, n: nat)
    : Result<seq<string>, JsError>
    requires n <= |keys|
    requires ListRequest(c, mount, subfolder) in net
    decreases |Longer(net, |ListRequest(c, mount, subfolder).url|)|, |mount|, 0, n
  {
    if n == 0 then Success([])
    else
      match Collect(c, net, mount, subfolder, keys, n - 1)
      case Failure(e) => Failure(e)
      case Success(folders) =>
        var element := keys[n - 1];
        if !element.Str? then Failure(TypeError)
        else if EndsWithSlash(element.s) then
          DescentShrinks(c, net, mount, subfolder, element.s);
          match ListAt(c, net, mount, subfolder + element.s)
          case Failure(e) => Failure(e)
          case Success(tmp) => Success(Dedup(folders + tmp))
        else
          Success(folders + [mount + "/data/" + subfolder + element.s])
  }

  /** The store answer listing `keys` under `data.keys`. */
  function KeysAnswer(keys: seq<Json>): Json {
    Obj(map["data" := Obj(map["keys" := Arr(keys)])])
  }

  /** The first two keys `a`, `a` of the `kv` listing leave `kv/data/a` twice in the accumulator. */
  lemma TwoLeavesA(c: Client, net: Network, keys: seq<Json>)
    requires ListRequest(c, "kv", "") in net
    requires |keys| >= 2 && keys[0] == Str("a") && keys[1] == Str("a")
    ensures Collect(c, net, "kv", "", keys, 2) == Success(["kv/data/a", "kv/data/a"])
  {
    var leaf: string := "kv/data/a";
    assert "kv" + "/data/" + "" + "a" == leaf;
    CollectLeaf(c, net, "kv", "", keys, 0, []);
    assert [] + [leaf] == [leaf];
    CollectLeaf(c, net, "kv", "", keys, 1, [leaf]);
    assert [leaf] + [leaf] == [leaf, leaf];
  }

  /** Two equal leaf keys at one level both reach the result: a run of leaves is not merged. */
  lemma DuplicateLeavesKept(c: Client, net: Network)
    requires ListRequest(c, "kv", "") in net
    requires net[ListRequest(c, "kv", "")] == KeysAnswer([Str("a"), Str("a")])
    ensures ListAt(c, net, "kv", "") == Success(["kv/data/a", "kv/data/a"])
  {
    var keys := [Str("a"), Str("a")];
    assert KeysOf(KeysAnswer(keys)) == Some(keys);
    assert StripSlash("kv") == "kv";
    TwoLeavesA(c, net, keys);
  }

  /** A level whose listing has no keys contributes nothing. */
  lemma EmptyLevel(c: Client, net: Network, subfolder: string)
    requires ListRequest(c, "kv", subfolder) in net
    requires net[ListRequest(c, "kv", subfolder)] == KeysAnswer([])
    ensures ListAt(c, net, "kv", subfolder) == Success([])
  {
    assert KeysOf(KeysAnswer([])) == Some([]);
    assert StripSlash("kv") == "kv";
  }

  /** Merging an empty subdirectory after the leaves `kv/data/a`, `kv/data/a` leaves one of them. */
  lemma MergeAfterTwoLeavesA(c: Client, net: Network, keys: seq<Json>)
    requires ListRequest(c, "kv", "") in net
    requires |keys| >= 3 && keys[2] == Str("d/")
    requires Collect(c, net, "kv", "", keys, 2) == Success(["kv/data/a", "kv/data/a"])
    requires ListAt(c, net, "kv", "d/") == Success([])
    ensures Collect(c, net, "kv", "", keys, 3) == Success(["kv/data/a"])
  {
    var leaf: string := "kv/data/a";
    assert "" + keys[2].s == "d/";
    CollectDirectory(c, net, "kv", "", keys, 2, [leaf, leaf], []);
    assert [leaf, leaf] + [] == [leaf, leaf];
    assert [leaf, leaf][..1] == [leaf];
    assert Dedup([leaf]) == [leaf];
  }

  /**
   * A directory key after them merges the whole accumulator by set union, so
   * the same duplicate leaves then reach the result once.
   */
  lemma DirectoryKeyMergesDuplicates(c: Client, net: Network)
    requires ListRequest(c, "kv", "") in net && ListRequest(c, "kv", "d/") in net
    requires net[ListRequest(c, "kv", "")] == KeysAnswer([Str("a"), Str("a"), Str("d/")])
    requires net[ListRequest(c, "kv", "d/")] == KeysAnswer([])
    ensures ListAt(c, net, "kv", "") == Success(["kv/data/a"])
  {
    var keys := [Str("a"), Str("a"), Str("d/")];
    assert KeysOf(KeysAnswer(keys)) == Some(keys);
    assert StripSlash("kv") == "kv";
    TwoLeavesA(c, net, keys);
    EmptyLevel(c, net, "d/");
    MergeAfterTwoLeavesA(c, net, keys);
  }

  /** Once the loop has thrown, processing more keys cannot undo it. */
  lemma {:induction false} CollectFailurePersists(c: Client, net: Network, mount: string, subfolder: string,
                                                  keys: seq<Json>, n: nat, m: nat)
    requires n <= m <= |keys|
    requires ListRequest(c, mount, subfolder) in net
    requires Collect(c, net, mount, subfolder, keys, n).Failure?
    ensures Collect(c, net, mount, subfolder, keys, m) == Failure(TypeError)
    decreases m
  {
    if n < m {
      CollectFailurePersists(c, net, mount, subfolder, keys, n, m - 1);
    } else {
      assert Collect(c, net, mount, subfolder, keys, m).error.TypeError?;
    }
  }

  /** The loop step for a key that is not a directory: its leaf path is pushed. */
  lemma CollectLeaf(c: Client, net: Network, mount: string, subfolder: string, keys: seq<Json>, i: nat, folders: seq<string>)
    requires i < |keys| && ListRequest(c, mount, subfolder) in net
    requires Collect(c, net, mount, subfolder, keys, i) == Success(folders)
    requires keys[i].Str? && !EndsWithSlash(keys[i].s)
    ensures Collect(c, net, mount, subfolder, keys, i + 1) == Success(folders + [mount + "/data/" + subfolder + keys[i].s])
  {
  }

  /** The loop step for a directory key: its listing is merged by set union. */
  lemma CollectDirectory(c: Client, net: Network, mount: string, subfolder: string, keys: seq<Json>, i: nat,
                         folders: seq<string>, tmp: seq<string>)
    requires i < |keys| && ListRequest(c, mount, subfolder) in net
    requires Collect(c, net, mount, subfolder, keys, i) == Success(folders)
    requires keys[i].Str? && EndsWithSlash(keys[i].s)
    requires ListAt(c, net, mount, subfolder + keys[i].s) == Success(tmp)
    ensures Collect(c, net, mount, subfolder, keys, i + 1) == Success(Dedup(folders + tmp))
  {
  }

  /** `getList`: strips one trailing slash, lists one level, and walks its keys. */
  method GetList(c: Client, net: Network, secretPath: string, subfolder: string)
    returns (r: Result<seq<string>, JsError>)
    ensures r == ListAt(c, net, secretPath, subfolder)
    decreases |Longer(net, |ListRequest(c, StripSlash(secretPath), subfolder).url|)|, |StripSlash(secretPath)|, 1
  {
    var mount := secretPath;
    if EndsWithSlash(mount) {
      mount := mount[..|mount| - 1];
    }
    var data := Send(net, ListRequest(c, mount, subfolder));
    if !Defined(data) {
      return Success([]);
    }
    var keys := KeysOf(data.value);
    if keys.None? {
      return Failure(TypeError);
    }
    r := CollectKeys(c, net, mount, subfolder, keys.value);
  }

  /**
   * The loop of `getList` over the listed keys: a leaf key pushes its path, a
   * directory key recurses and merges the result by set union.
   */
  method CollectKeys(c: Client, net: Network, mount: string, subfolder: string, keys: seq<Json>)
    returns (r: Result<seq<string>, JsError>)
    requires ListRequest(c, mount, subfolder) in net
    ensures r == Collect(c, net, mount, subfolder, keys, |keys|)
    decreases |Longer(net, |ListRequest(c, mount, subfolder).url|)|, |mount|, 0
  {
    var folders: seq<string> := [];
    var i := 0;
    while i < |keys|
      invariant 0 <= i <= |keys|
      invariant Collect(c, net, mount, subfolder, keys, i) == Success(folders)
    {
      var element := keys[i];
      if !element.Str? {
        CollectFailurePersists(c, net, mount, subfolder, keys, i + 1, |keys|);
        return Failure(TypeError);
      }
      if EndsWithSlash(element.s) {
        DescentShrinks(c, net, mount, subfolder, element.s);
        var tmp := GetList(c, net, mount, subfolder + element.s);
        if tmp.Failure? {
          CollectFailurePersists(c, net, mount, subfolder, keys, i + 1, |keys|);
          return Failure(TypeError);
        }
        CollectDirectory(c, net, mount, subfolder, keys, i, folders, tmp.value);
        folders := Dedup(folders + tmp.value);
      } else {
        CollectLeaf(c, net, mount, subfolder, keys, i, folders);
        folders := folders + [mount + "/data/" + subfolder + element.s];
      }
      i := i + 1;
    }
    return Success(folders);
  }

  // --------------------------------------------------------- getList, proofs

  /** A `getList` that receives no usable answer lists nothing and does not throw. */
  lemma ListWithoutAnswer(c: Client, net: Network, secretPath: string, subfolder: string)
    requires !Defined(Send(net, ListRequest(c, StripSlash(secretPath), subfolder)))
    ensures ListAt(c, net, secretPath, subfolder) == Success([])
  {
  }

  /**
   * What one listed key contributes: a directory key the paths of its own listing
   * (which must not throw), any other key the single leaf path under `{mount}/data/`.
   */
  ghost predicate Contributes(c: Client, net: Network, mount: string, subfolder: string, key: string, p: string) {
    if EndsWithSlash(key) then
      ListAt(c, net, mount, subfolder + key).Success? && p in ListAt(c, net, mount, subfolder + key).value
    else
      p == mount + "/data/" + subfolder + key
  }

  /** One more key adds exactly what that key contributes to the accumulator. */
  lemma CollectStep(c: Client, net: Network, mount: string, subfolder: string, keys: seq<Json>, n: nat)
    requires 0 < n <= |keys|
    requires ListRequest(c, mount, subfolder) in net
    requires Collect(c, net, mount, subfolder, keys, n).Success?
    ensures Collect(c, net, mount, subfolder, keys, n - 1).Success? && keys[n - 1].Str?
    ensures forall p :: p in Collect(c, net, mount, subfolder, keys, n).value <==>
              p in Collect(c, net, mount, subfolder, keys, n - 1).value ||
              Contributes(c, net, mount, subfolder, keys[n - 1].s, p)
  {
    var folders := Collect(c, net, mount, subfolder, keys, n - 1).value;
    var key := keys[n - 1].s;
    if EndsWithSlash(key) {
      var tmp := ListAt(c, net, mount, subfolder + key).value;
      forall p ensures p in Dedup(folders + tmp) <==> p in folders || p in tmp {
        DedupMembership(folders + tmp, p);
      }
    }
  }

  /** The accumulator after `n` keys holds exactly what those keys contribute. */
  lemma {:induction false} CollectExact(c: Client, net: Network, mount: string, subfolder: string,
                                        keys: seq<Json>, n: nat)
    requires n <= |keys|
    requires ListRequest(c, mount, subfolder) in net
    requires Collect(c, net, mount, subfolder, keys, n).Success?
    ensures forall j | 0 <= j < n :: keys[j].Str?
    ensures forall p :: p in Collect(c, net, mount, subfolder, keys, n).value <==>
              exists j | 0 <= j < n :: keys[j].Str? && Contributes(c, net, mount, subfolder, keys[j].s, p)
  {
    if n > 0 {
      CollectStep(c, net, mount, subfolder, keys, n);
      CollectExact(c, net, mount, subfolder, keys, n - 1);
    }
  }

  /**
   * One level of `getList`: the result is exactly the union of what the listed
   * keys contribute; directory keys recurse with `subfolder + key` and never
   * appear themselves.
   */
  lemma ListLevels(c: Client, net: Network, secretPath: string, subfolder: string)
    requires ListAt(c, net, secretPath, subfolder).Success?
    requires Defined(Send(net, ListRequest(c, StripSlash(secretPath), subfolder)))
    ensures var data := Send(net, ListRequest(c, StripSlash(secretPath), subfolder)).value;
            KeysOf(data).Some? &&
            var keys := KeysOf(data).value;
            (forall j | 0 <= j < |keys| :: keys[j].Str?) &&
            forall p :: p in ListAt(c, net, secretPath, subfolder).value <==>
              exists j | 0 <= j < |keys| :: keys[j].Str? && Contributes(c, net, StripSlash(secretPath), subfolder, keys[j].s, p)
  {
    var mount := StripSlash(secretPath);
    var keys := KeysOf(Send(net, ListRequest(c, mount, subfolder)).value).value;
    CollectExact(c, net, mount, subfolder, keys, |keys|);
  }

  /** A listed key in a well-behaved store: not empty, and a slash only as its last character. */
  ghost predicate KeyShape(key: string) {
    key != "" && forall i | 0 <= i < |key| - 1 :: key[i] != '/'
  }

  /** A store that lists each name at most once, each one with `KeyShape`, as Vault itself does. */
  ghost predicate WellFormedStore(net: Network) {
    forall r | r in net ::
      KeysOf(net[r]).Some? ==>
        NoDups(KeysOf(net[r]).value) &&
        forall i | 0 <= i < |KeysOf(net[r]).value| ::
          KeysOf(net[r]).value[i].Str? ==> KeyShape(KeysOf(net[r]).value[i].s)
  }

  /** The invariant of the loop in a well-formed store, for the leaf paths collected so far. */
  ghost predicate CleanSoFar(folders: seq<string>, prefix: string, keys: seq<Json>, n: nat)
    requires n <= |keys|
  {
    && NoDups(folders)
    && forall p | p in folders ::
         StartsWith(p, prefix) && !EndsWithSlash(p) &&
         ('/' in p[|prefix|..] || Str(p[|prefix|..]) in keys[..n])
  }

  /**
   * In a well-formed store and for a mount that does not end in a slash, every
   * path `getList` returns lies under `{mount}/data/{subfolder}`, does not end in
   * a slash, and occurs once.
   */
  lemma {:induction false} ListClean(c: Client, net: Network, secretPath: string, subfolder: string)
    requires WellFormedStore(net)
    requires !EndsWithSlash(StripSlash(secretPath))
    ensures ListAt(c, net, secretPath, subfolder).Success? ==>
              var paths := ListAt(c, net, secretPath, subfolder).value;
              NoDups(paths) &&
              forall p | p in paths ::
                StartsWith(p, StripSlash(secretPath) + "/data/" + subfolder) && !EndsWithSlash(p)
    decreases |Longer(net, |ListRequest(c, StripSlash(secretPath), subfolder).url|)|, |StripSlash(secretPath)|, 1, 0
  {
    var mount := StripSlash(secretPath);
    var data := Send(net, ListRequest(c, mount, subfolder));
    if Defined(data) && KeysOf(data.value).Some? {
      var keys := KeysOf(data.value).value;
      CollectClean(c, net, mount, subfolder, keys, |keys|);
    }
  }

  lemma {:induction false} CollectClean(c: Client, net: Network, mount: string, subfolder: string,
                                        keys: seq<Json>, n: nat)
    requires WellFormedStore(net)
    requires !EndsWithSlash(mount)
    requires n <= |keys|
    requires ListRequest(c, mount, subfolder) in net
    requires KeysOf(net[ListRequest(c, mount, subfolder)]) == Some(keys)
    ensures Collect(c, net, mount, subfolder, keys, n).Success? ==>
              CleanSoFar(Collect(c, net, mount, subfolder, keys, n).value, mount + "/data/" + subfolder, keys, n)
    decreases |Longer(net, |ListRequest(c, mount, subfolder).url|)|, |mount|, 0, n
  {
    if n > 0 && Collect(c, net, mount, subfolder, keys, n).Success? {
      CollectStep(c, net, mount, subfolder, keys, n);
      CollectClean(c, net, mount, subfolder, keys, n - 1);
      var key := keys[n - 1].s;
      if EndsWithSlash(key) {
        DescentShrinks(c, net, mount, subfolder, key);
        ListClean(c, net, mount, subfolder + key);
        CleanAfterDirectory(c, net, mount, subfolder, keys, n);
      } else {
        CleanAfterLeaf(Collect(c, net, mount, subfolder, keys, n - 1).value, mount + "/data/" + subfolder, keys, n);
      }
    }
  }

  /**
   * In every store, and for a mount that does not end in a slash, every path
   * `getList` returns lies under `{mount}/data/{subfolder}`.
   */
  lemma {:induction false} ListPrefix(c: Client, net: Network, secretPath: string, subfolder: string)
    requires !EndsWithSlash(StripSlash(secretPath))
    ensures ListAt(c, net, secretPath, subfolder).Success? ==>
              forall p | p in ListAt(c, net, secretPath, subfolder).value ::
                StartsWith(p, StripSlash(secretPath) + "/data/" + subfolder)
    decreases |Longer(net, |ListRequest(c, StripSlash(secretPath), subfolder).url|)|, |StripSlash(secretPath)|, 1, 0
  {
    var mount := StripSlash(secretPath);
    var data := Send(net, ListRequest(c, mount, subfolder));
    if Defined(data) && KeysOf(data.value).Some? {
      var keys := KeysOf(data.value).value;
      CollectPrefix(c, net, mount, subfolder, keys, |keys|);
    }
  }

  lemma {:induction false} CollectPrefix(c: Client, net: Network, mount: string, subfolder: string,
                                         keys: seq<Json>, n: nat)
    requires !EndsWithSlash(mount)
    requires n <= |keys|
    requires ListRequest(c, mount, subfolder) in net
    ensures Collect(c, net, mount, subfolder, keys, n).Success? ==>
              forall p | p in Collect(c, net, mount, subfolder, keys, n).value :: StartsWith(p, mount + "/data/" + subfolder)
    decreases |Longer(net, |ListRequest(c, mount, subfolder).url|)|, |mount|, 0, n
  {
    if n > 0 && Collect(c, net, mount, subfolder, keys, n).Success? {
      CollectStep(c, net, mount, subfolder, keys, n);
      CollectPrefix(c, net, mount, subfolder, keys, n - 1);
      var key := keys[n - 1].s;
      var prefix := mount + "/data/" + subfolder;
      assert prefix + key == mount + "/data/" + (subfolder + key);
      if EndsWithSlash(key) {
        DescentShrinks(c, net, mount, subfolder, key);
        ListPrefix(c, net, mount, subfolder + key);
        forall p | p in ListAt(c, net, mount, subfolder + key).value ensures StartsWith(p, prefix) {
          StartsWithLonger(p, prefix, key);
        }
      } else {
        assert (prefix + key)[..|prefix|] == prefix;
      }
    }
  }

  /** The loop step for a directory key, given what `ListClean` says about that directory. */
  lemma CleanAfterDirectory(c: Client, net: Network, mount: string, subfolder: string, keys: seq<Json>, n: nat)
    requires 0 < n <= |keys|
    requires ListRequest(c, mount, subfolder) in net
    requires Collect(c, net, mount, subfolder, keys, n).Success?
    requires Collect(c, net, mount, subfolder, keys, n - 1).Success? && keys[n - 1].Str? && EndsWithSlash(keys[n - 1].s)
    requires CleanSoFar(Collect(c, net, mount, subfolder, keys, n - 1).value, mount + "/data/" + subfolder, keys, n - 1)
    requires var key := keys[n - 1].s;
             ListAt(c, net, mount, subfolder + key).Success? ==>
               forall p | p in ListAt(c, net, mount, subfolder + key).value ::
                 StartsWith(p, StripSlash(mount) + "/data/" + (subfolder + key)) && !EndsWithSlash(p)
    requires StripSlash(mount) == mount
    ensures CleanSoFar(Collect(c, net, mount, subfolder, keys, n).value, mount + "/data/" + subfolder, keys, n)
  {
    var key := keys[n - 1].s;
    var prefix := mount + "/data/" + subfolder;
    assert prefix + key == mount + "/data/" + (subfolder + key);
    CleanAfterMerge(Collect(c, net, mount, subfolder, keys, n - 1).value, ListAt(c, net, mount, subfolder + key).value,
                    prefix, key, keys, n);
  }

  /** Merging the paths of a directory key's listing keeps the loop invariant. */
  lemma CleanAfterMerge(folders: seq<string>, tmp: seq<string>, prefix: string, key: string, keys: seq<Json>, n: nat)
    requires 0 < n <= |keys|
    requires CleanSoFar(folders, prefix, keys, n - 1)
    requires EndsWithSlash(key)
    requires forall p | p in tmp :: StartsWith(p, prefix + key) && !EndsWithSlash(p)
    ensures CleanSoFar(Dedup(folders + tmp), prefix, keys, n)
  {
    assert keys[..n - 1] + [keys[n - 1]] == keys[..n];
    forall p | p in Dedup(folders + tmp)
      ensures StartsWith(p, prefix) && !EndsWithSlash(p) && ('/' in p[|prefix|..] || Str(p[|prefix|..]) in keys[..n])
    {
      DedupMembership(folders + tmp, p);
      if p in tmp {
        assert p[..|prefix|] == (prefix + key)[..|prefix|];
        assert p[|prefix|..][|key| - 1] == key[|key| - 1];
      } else {
        assert p in folders;
      }
    }
  }

  /** Appending the leaf path of a well-formed key keeps the loop invariant. */
  lemma CleanAfterLeaf(folders: seq<string>, prefix: string, keys: seq<Json>, n: nat)
    requires 0 < n <= |keys|
    requires CleanSoFar(folders, prefix, keys, n - 1)
    requires NoDups(keys)
    requires keys[n - 1].Str? && KeyShape(keys[n - 1].s) && !EndsWithSlash(keys[n - 1].s)
    ensures CleanSoFar(folders + [prefix + keys[n - 1].s], prefix, keys, n)
  {
    var key := keys[n - 1].s;
    var leaf := prefix + key;
    assert keys[..n - 1] + [keys[n - 1]] == keys[..n];
    assert leaf[..|prefix|] == prefix;
    assert leaf[|prefix|..] == key;
    assert '/' !in key;
    assert Str(key) !in keys[..n - 1] by {
      forall j | 0 <= j < n - 1 ensures keys[j] != Str(key) {
        assert keys[j] != keys[n - 1];
      }
    }
    assert leaf !in folders;
  }
}
