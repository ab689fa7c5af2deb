/**
 * The secrets tree (`ConfigsProvider`): the list of secret paths shown to the
 * user with their capabilities, and `listConfigs`, which discovers the paths
 * under a mount and keeps those the token may read.
 */
module ConfigsProvider {
  import opened Wrappers
  import opened Seqs
  import opened Json
  import opened Text
  import opened VaultApi

  /** The capabilities `ConfigItem` reports, in the order it reports them. */
  const CapabilityOrder: seq<string> := ["read", "list", "create", "update", "delete", "sudo"]

  /** The capabilities `createPath` records for a secret it has just written. */
  const CreatedAccess: seq<string> := ["read", "create", "update", "delete"]

  /** `' read'`, `' list'`, ... for each of `caps` that `access` includes. */
  function Flags(caps: seq<string>, access: seq<string>): string {
    if |caps| == 0 then ""
    else (if caps[0] in access then " " + caps[0] else "") + Flags(caps[1..], access)
  }

  /** The capabilities of `caps` that `access` includes, in the order of `caps`. */
  function Granted(caps: seq<string>, access: seq<string>): (r: seq<string>)
    ensures forall i | 0 <= i < |r| :: r[i] in caps && r[i] in access
    ensures forall i | 0 <= i < |caps| && caps[i] in access :: caps[i] in r
  {
    if |caps| == 0 then []
    else (if caps[0] in access then [caps[0]] else []) + Granted(caps[1..], access)
  }

  /** The `contextValue` of a `ConfigItem`. */
  function ContextValue(access: seq<string>): string {
    "access" + Flags(CapabilityOrder, access)
  }

  /** Splitting `w + Flags(caps, access)` on spaces yields `w` and then the granted capabilities in order. */
  lemma {:induction false} SplitFlags(w: string, caps: seq<string>, access: seq<string>)
    requires ' ' !in w
    requires forall i | 0 <= i < |caps| :: ' ' !in caps[i]
    ensures Split(w + Flags(caps, access)) == [w] + Granted(caps, access)
    decreases |caps|, 1
  {
    if |caps| == 0 {
      assert w + Flags(caps, access) == w;
      SplitWithoutSpace(w);
    } else if caps[0] in access {
      SplitGrantedFlag(w, caps, access);
    } else {
      SplitFlags(w, caps[1..], access);
      assert Flags(caps, access) == Flags(caps[1..], access);
    }
  }

  /** The step of `SplitFlags` for a granted first capability: it becomes the second word. */
  lemma {:induction false} SplitGrantedFlag(w: string, caps: seq<string>, access: seq<string>)
    requires ' ' !in w
    requires forall i | 0 <= i < |caps| :: ' ' !in caps[i]
    requires |caps| > 0 && caps[0] in access
    ensures Split(w + Flags(caps, access)) == [w] + Granted(caps, access)
    decreases |caps|, 0
  {
    var rest := Flags(caps[1..], access);
    SplitFlags(caps[0], caps[1..], access);
    assert w + Flags(caps, access) == w + " " + (caps[0] + rest);
    SplitAtFirstSpace(w, caps[0] + rest);
  }

  /**
   * The context value reads `access` followed by each granted capability of
   * `CapabilityOrder`, in that order, whatever the order of `access`; anything
   * else in `access` (such as `deny`) contributes nothing.
   */
  lemma ContextValueWords(access: seq<string>)
    ensures Split(ContextValue(access)) == ["access"] + Granted(CapabilityOrder, access)
    ensures forall t :: t in Split(ContextValue(access))[1..] <==> t in CapabilityOrder && t in access
  {
    SplitFlags("access", CapabilityOrder, access);
    var words := Granted(CapabilityOrder, access);
    assert Split(ContextValue(access))[1..] == words;
    forall t ensures t in words <==> t in CapabilityOrder && t in access {
      if t in CapabilityOrder && t in access {
        var i :| 0 <= i < |CapabilityOrder| && CapabilityOrder[i] == t;
      }
      if t in words {
        var i :| 0 <= i < |words| && words[i] == t;
      }
    }
  }

  /** Two capability lists that agree on the six reported capabilities give the same context value. */
  lemma {:induction false} FlagsDependOnMembershipOnly(caps: seq<string>, a: seq<string>, b: seq<string>)
    requires forall i | 0 <= i < |caps| :: caps[i] in a <==> caps[i] in b
    ensures Flags(caps, a) == Flags(caps, b)
  {
    if |caps| > 0 {
      FlagsDependOnMembershipOnly(caps[1..], a, b);
    }
  }

  /**
   * A tree item for one secret path; it always runs the "load secret" command when
   * clicked. `caption` is the text the tree shows (the TreeItem's label).
   */
  datatype ConfigItem = ConfigItem(caption: string, path: string, access: seq<string>, contextValue: string, command: string)

  const LoadSecretCommand: string := "vault-env.configs.loadSecret"

  function NewConfigItem(caption: string, path: string, access: seq<string>): (item: ConfigItem)
    ensures item.caption == caption && item.path == path && item.access == access
    ensures item.command == LoadSecretCommand
    ensures Split(item.contextValue) == ["access"] + Granted(CapabilityOrder, access)
  {
    ContextValueWords(access);
    ConfigItem(caption, path, access, ContextValue(access), LoadSecretCommand)
  }

  /** An entry of `items`: a path and its capabilities, which a caller may have left undefined. */
  datatype ConfigEntry = ConfigEntry(path: string, access: Option<seq<string>>)

  /** `items.map(item => new ConfigItem(item.path, None, item.path, item.access || []))`. */
  function ItemsOf(entries: seq<ConfigEntry>): (r: seq<ConfigItem>)
    ensures |r| == |entries|
    ensures forall i | 0 <= i < |r| ::
              r[i].caption == entries[i].path && r[i].path == entries[i].path &&
              r[i].access == entries[i].access.GetOr([])
    ensures forall i | 0 <= i < |r| ::
              r[i] == NewConfigItem(entries[i].path, entries[i].path, entries[i].access.GetOr([]))
  {
    if |entries| == 0 then []
    else [NewConfigItem(entries[0].path, entries[0].path, entries[0].access.GetOr([]))] + ItemsOf(entries[1..])
  }

  /** A path that `listConfigs` keeps, with the capability list the store reported for it. */
  datatype Grant = Grant(path: string, access: Json)

  /** What `access[path]` evaluates to: a value, `undefined`, or a thrown TypeError. */
  datatype Lookup = Found(v: Json) | Undefined | Throws

  function LookupPath(access: Option<Json>, path: string): (r: Lookup)
    ensures r.Throws? <==> access.None? || access.value.Null?
    ensures r.Found? <==> access.Some? && access.value.Obj? && path in access.value.fields
    ensures r.Found? ==> r.v == access.value.fields[path]
  {
    if access.None? || access.value.Null? then Throws
    else
      match Member(access.value, path)
      case Some(v) => Found(v)
      case None => Undefined
  }

  /** `v.includes('read')`: membership for an array, substring for a string; any other value throws. */
  function IncludesRead(v: Json): (r: Option<bool>)
    ensures r.Some? <==> v.Arr? || v.Str?
    ensures v.Arr? ==> (r == Some(true) <==> Str("read") in v.items)
    ensures v.Str? ==> (r == Some(true) <==> Contains(v.s, "read"))
  {
    match v
    case Arr(items) => Some(Str("read") in items)
    case Str(s) => Some(Contains(s, "read"))
    case _ => None
  }

  /** The decision the loop makes for one path. */
  datatype Verdict = Keep(v: Json) | Drop | Throw

  function VerdictFor(access: Option<Json>, path: string): (r: Verdict)
    ensures r.Keep? <==> LookupPath(access, path).Found? && Truthy(LookupPath(access, path).v) &&
                         IncludesRead(LookupPath(access, path).v) == Some(true)
    ensures r.Keep? ==> LookupPath(access, path) == Found(r.v)
    ensures r.Throw? <==> LookupPath(access, path).Throws? ||
                          (LookupPath(access, path).Found? && Truthy(LookupPath(access, path).v) &&
                           IncludesRead(LookupPath(access, path).v).None?)
  {
    match LookupPath(access, path)
    case Throws => Throw
    case Undefined => Drop
    case Found(v) =>
      if !Truthy(v) then Drop
      else
        match IncludesRead(v)
        case None => Throw
        case Some(b) => if b then Keep(v) else Drop
  }

  /** The grants `listConfigs` returns for a listing, in listing order. */
  function ReadableGrants(list: seq<string>, access: Option<Json>): Result<seq<Grant>, JsError> {
    if |list| == 0 then Success([])
    else
      match VerdictFor(access, list[0])
      case Throw => Failure(TypeError)
      case Drop => ReadableGrants(list[1..], access)
      case Keep(v) => Then([Grant(list[0], v)], ReadableGrants(list[1..], access))
  }

  /** `res` followed by the outcome of the remaining iterations. */
  function Then(res: seq<Grant>, rest: Result<seq<Grant>, JsError>): Result<seq<Grant>, JsError> {
    match rest
    case Failure(e) => Failure(e)
    case Success(gs) => Success(res + gs)
  }

  lemma ThenNothing(rest: Result<seq<Grant>, JsError>)
    ensures Then([], rest) == rest
  {
    if rest.Success? {
      assert [] + rest.value == rest.value;
    }
  }

  lemma ThenThen(a: seq<Grant>, b: seq<Grant>, rest: Result<seq<Grant>, JsError>)
    ensures Then(a, Then(b, rest)) == Then(a + b, rest)
  {
    if rest.Success? {
      assert a + (b + rest.value) == (a + b) + rest.value;
    }
  }

  function PathsOf(gs: seq<Grant>): (r: seq<string>)
    ensures |r| == |gs| && forall i | 0 <= i < |gs| :: r[i] == gs[i].path
  {
    if |gs| == 0 then [] else [gs[0].path] + PathsOf(gs[1..])
  }

  /** The store's capability answer has the documented shape: an object of arrays. */
  ghost predicate CapabilityMap(caps: map<string, Json>) {
    forall p | p in caps :: caps[p].Arr?
  }

  ghost predicate HasRead(caps: map<string, Json>, p: string) {
    p in caps && caps[p].Arr? && Str("read") in caps[p].items
  }

  /**
   * With a well-shaped capability answer, `listConfigs` keeps, in listing order,
   * exactly the paths whose capability list includes `read`, each paired with
   * its own capability list; a path without an entry is dropped.
   */
  lemma {:induction false} ReadableGrantsExact(list: seq<string>, caps: map<string, Json>)
    requires CapabilityMap(caps)
    ensures ReadableGrants(list, Some(Obj(caps))).Success?
    ensures var gs := ReadableGrants(list, Some(Obj(caps))).value;
            PathsOf(gs) == Filter((p: string) => HasRead(caps, p), list) &&
            forall i | 0 <= i < |gs| :: gs[i].path in caps && gs[i].access == caps[gs[i].path]
  {
    if |list| > 0 {
      ReadableGrantsExact(list[1..], caps);
      var readable := (p: string) => HasRead(caps, p);
      assert Filter(readable, list) == (if readable(list[0]) then [list[0]] else []) + Filter(readable, list[1..]);
      var rest := ReadableGrants(list[1..], Some(Obj(caps))).value;
      if HasRead(caps, list[0]) {
        assert VerdictFor(Some(Obj(caps)), list[0]) == Keep(caps[list[0]]);
        assert PathsOf([Grant(list[0], caps[list[0]])] + rest) == [list[0]] + PathsOf(rest);
      } else {
        assert VerdictFor(Some(Obj(caps)), list[0]) == Drop;
      }
    }
  }

  /** With no answer to the capabilities request every path is dropped, without an error. */
  lemma {:induction false} ReadableGrantsWithoutAnswer(list: seq<string>)
    ensures ReadableGrants(list, Some(EmptyObject)) == Success([])
  {
    if |list| > 0 {
      ReadableGrantsWithoutAnswer(list[1..]);
    }
  }

  /**
   * For any capability answer, the loop keeps, in listing order, exactly the paths
   * whose verdict is to keep them, each with the capability value that was tested;
   * it succeeds exactly when no path's check throws.
   */
  lemma {:induction false} ReadableGrantsSound(list: seq<string>, access: Option<Json>)
    ensures ReadableGrants(list, access).Success? <==>
            forall i | 0 <= i < |list| :: !VerdictFor(access, list[i]).Throw?
    ensures ReadableGrants(list, access).Success? ==>
            var gs := ReadableGrants(list, access).value;
            PathsOf(gs) == Filter((p: string) => VerdictFor(access, p).Keep?, list) &&
            forall i | 0 <= i < |gs| :: VerdictFor(access, gs[i].path) == Keep(gs[i].access)
  {
    if |list| > 0 {
      ReadableGrantsSound(list[1..], access);
      var keep := (p: string) => VerdictFor(access, p).Keep?;
      assert Filter(keep, list) == (if keep(list[0]) then [list[0]] else []) + Filter(keep, list[1..]);
      assert forall i | 1 <= i < |list| :: list[i] == list[1..][i - 1];
      match VerdictFor(access, list[0])
      case Throw =>
      case Drop =>
      case Keep(v) =>
        if ReadableGrants(list[1..], access).Success? {
          var rest := ReadableGrants(list[1..], access).value;
          assert PathsOf([Grant(list[0], v)] + rest) == [list[0]] + PathsOf(rest);
        }
    }
  }

  /** The specification of `listConfigs(storage)`. */
  function ConfigsFor(c: Client, net: Network, storage: string): (r: Result<seq<Grant>, JsError>)
    ensures ListAt(c, net, storage, "").Failure? ==> r == Failure(ListAt(c, net, storage, "").error)
    ensures r.Success? ==>
            ListAt(c, net, storage, "").Success? &&
            forall i | 0 <= i < |r.value| ::
              r.value[i].path in ListAt(c, net, storage, "").value &&
              IncludesRead(r.value[i].access) == Some(true)
  {
    match ListAt(c, net, storage, "")
    case Failure(e) => Failure(e)
    case Success(list) =>
      var access := CheckAccess(c, net, list);
      ReadableGrantsSound(list, access);
      assert forall p | p in Filter((p: string) => VerdictFor(access, p).Keep?, list) :: p in list;
      ReadableGrants(list, access)
  }

  /** A failed capabilities request makes `listConfigs` return an empty list rather than throw. */
  lemma ConfigsWhenAccessCheckFails(c: Client, net: Network, storage: string)
    requires ListAt(c, net, storage, "").Success?
    requires CheckAccessRequest(c, ListAt(c, net, storage, "").value) !in net
    ensures ConfigsFor(c, net, storage) == Success([])
  {
    ReadableGrantsWithoutAnswer(ListAt(c, net, storage, "").value);
  }

  /** Removing a path that was just added leaves the entries for every other path as they were. */
  lemma RemovePathUndoesAddPath(entries: seq<ConfigEntry>, path: string, access: Option<seq<string>>)
    ensures Filter((e: ConfigEntry) => e.path != path, entries + [ConfigEntry(path, access)]) ==
            Filter((e: ConfigEntry) => e.path != path, entries)
  {
    var f := (e: ConfigEntry) => e.path != path;
    FilterConcat(f, entries, [ConfigEntry(path, access)]);
    assert Filter(f, [ConfigEntry(path, access)]) == [];
    assert Filter(f, entries) + [] == Filter(f, entries);
  }

  /** The loop step of `listConfigs` that splices out a path the token may not read. */
  lemma DropStep(original: seq<string>, k: nat, list: seq<string>, index: nat, res: seq<Grant>, access: Option<Json>)
    requires index < |list| && k < |original|
    requires list[index..] == original[k..] && list[..index] == PathsOf(res)
    requires Then(res, ReadableGrants(original[k..], access)) == ReadableGrants(original, access)
    requires VerdictFor(access, list[index]).Drop?
    ensures var spliced := list[..index] + list[index + 1..];
            index <= |spliced| && spliced[index..] == original[k + 1..] && spliced[..index] == PathsOf(res) &&
            Then(res, ReadableGrants(original[k + 1..], access)) == ReadableGrants(original, access)
  {
    assert original[k..][1..] == original[k + 1..];
    assert list[index + 1..] == list[index..][1..];
    var spliced := list[..index] + list[index + 1..];
    assert spliced[..index] == list[..index];
    assert spliced[index..] == list[index + 1..];
  }

  /** The loop step of `listConfigs` that keeps a readable path with its capabilities. */
  lemma KeepStep(original: seq<string>, k: nat, list: seq<string>, index: nat, res: seq<Grant>, access: Option<Json>, v: Json)
    requires index < |list| && k < |original|
    requires list[index..] == original[k..] && list[..index] == PathsOf(res)
    requires Then(res, ReadableGrants(original[k..], access)) == ReadableGrants(original, access)
    requires VerdictFor(access, list[index]) == Keep(v)
    ensures var res' := res + [Grant(list[index], v)];
            list[index + 1..] == original[k + 1..] && list[..index + 1] == PathsOf(res') &&
            Then(res', ReadableGrants(original[k + 1..], access)) == ReadableGrants(original, access)
  {
    assert original[k..][1..] == original[k + 1..];
    assert list[index + 1..] == list[index..][1..];
    var res' := res + [Grant(list[index], v)];
    ThenThen(res, [Grant(list[index], v)], ReadableGrants(original[k + 1..], access));
    assert list[..index + 1] == list[..index] + [list[index]];
    assert PathsOf(res') == PathsOf(res) + [list[index]] by {
      assert res'[..|res|] == res;
    }
  }

  /** The loop step of `listConfigs` at a path whose check throws: the whole call throws. */
  lemma ThrowStep(original: seq<string>, k: nat, res: seq<Grant>, access: Option<Json>)
    requires k < |original|
    requires Then(res, ReadableGrants(original[k..], access)) == ReadableGrants(original, access)
    requires VerdictFor(access, original[k]).Throw?
    ensures ReadableGrants(original, access) == Failure(TypeError)
  {
    assert original[k..][0] == original[k];
  }

  class ConfigsProvider {
    var items: seq<ConfigEntry>

    constructor ()
      ensures items == []
    {
      items := [];
    }

    /** The root level of the tree is one item per entry; items have no children. */
    function GetChildren(element: Option<ConfigItem>): (r: seq<ConfigItem>)
      reads this
      ensures element.Some? ==> r == []
      ensures element.None? ==> r == ItemsOf(items)
    {
      if element.Some? then [] else ItemsOf(items)
    }

    method AddPath(path: string, access: Option<seq<string>>)
      modifies this
      ensures items == old(items) + [ConfigEntry(path, access)]
    {
      items := items + [ConfigEntry(path, access)];
    }

    /** Writes the secret (a failed write is swallowed), then lists the path with full access. */
    method CreatePath(url: string, token: string, ignoreSsl: bool, path: string, data: map<string, Json>)
      returns (sent: HttpRequest)
      modifies this
      ensures sent == UpdateSecretRequest(Client(url, token, ignoreSsl), path, data)
      ensures items == old(items) + [ConfigEntry(path, Some(CreatedAccess))]
    {
      sent := UpdateSecretRequest(Client(url, token, ignoreSsl), path, data);
      AddPath(path, Some(CreatedAccess));
    }

    /** Deletes the secret (a failed delete is swallowed), then drops every entry for the path. */
    method RemovePath(url: string, token: string, ignoreSsl: bool, path: string) returns (sent: HttpRequest)
      modifies this
      ensures sent == RemoveSecretRequest(Client(url, token, ignoreSsl), path)
      ensures items == Filter((e: ConfigEntry) => e.path != path, old(items))
    {
      sent := RemoveSecretRequest(Client(url, token, ignoreSsl), path);
      items := Filter((e: ConfigEntry) => e.path != path, items);
    }

    method ClearPaths()
      modifies this
      ensures items == []
    {
      items := [];
    }

    /**
     * `listConfigs`: lists the mount, asks for the capabilities of every path,
     * and walks the listing with an index, splicing out each path that may not
     * be read and stepping the index back so that the next path is not skipped.
     */
    method ListConfigs(url: string, token: string, ignoreSsl: bool, net: Network, storage: string)
      returns (r: Result<seq<Grant>, JsError>)
      ensures r == ConfigsFor(Client(url, token, ignoreSsl), net, storage)
    {
      var api := Client(url, token, ignoreSsl);
      var listing := GetList(api, net, storage, "");
      if listing.Failure? {
        return Failure(listing.error);
      }
      var list := listing.value;
      var access := CheckAccess(api, net, list);
      ghost var original := list;
      ghost var k := 0;
      var res: seq<Grant> := [];
      var index: int := 0;
      assert original[k..] == original;
      ThenNothing(ReadableGrants(original, access));
      while index < |list|
        invariant 0 <= index <= |list|
        invariant 0 <= k <= |original| && list[index..] == original[k..]
        invariant list[..index] == PathsOf(res)
        invariant Then(res, ReadableGrants(original[k..], access)) == ReadableGrants(original, access)
        decreases |list| - index
      {
        var path := list[index];
        assert path == original[k..][0];
        var verdict := VerdictFor(access, path);
        if verdict.Throw? {
          ThrowStep(original, k, res, access);
          return Failure(TypeError);
        }
        if verdict.Drop? {
          DropStep(original, k, list, index, res, access);
          list := list[..index] + list[index + 1..];
          index := index - 1;
        } else {
          KeepStep(original, k, list, index, res, access, verdict.v);
          res := res + [Grant(path, verdict.v)];
        }
        index := index + 1;
        k := k + 1;
      }
      assert original[k..] == [];
      assert res + [] == res;
      return Success(res);
    }
  }
}
