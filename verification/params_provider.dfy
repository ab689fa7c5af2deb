/**
 * The server registry (`ParamsProvider`): the configured Vault servers, the
 * selected one, and the per-server tokens. Persistent storage is modelled by
 * plain fields: `persisted` for the saved server list and `storedTokens` for
 * the saved name-to-token object (absent until the first token is saved).
 */
module ParamsProvider {
  import opened Wrappers
  import opened Seqs

  /** A configured server; `url` and `ignoreSsl` may be missing from a stored entry. */
  datatype Server = Server(name: string, url: Option<string>, ignoreSsl: Option<bool>)

  /** What `getConfig` hands to the rest of the extension. */
  datatype Config = Config(url: Option<string>, token: Option<string>, ignoreSsl: bool)

  /** The error `getConfig` throws when the selected name has no server. */
  datatype ConfigError = NoSuchServer(name: string)

  predicate HasServer(servers: seq<Server>, name: string) {
    exists i | 0 <= i < |servers| :: servers[i].name == name
  }

  ghost predicate DistinctNames(servers: seq<Server>) {
    forall i, j | 0 <= i < j < |servers| :: servers[i].name != servers[j].name
  }

  /** The position of the first server called `name`, or `|servers|` if there is none. */
  function FirstIndex(servers: seq<Server>, name: string): (k: nat)
    ensures k <= |servers|
    ensures forall i | 0 <= i < k :: servers[i].name != name
    ensures k < |servers| ==> servers[k].name == name
    ensures k == |servers| <==> !HasServer(servers, name)
  {
    if |servers| == 0 then 0
    else if servers[0].name == name then 0
    else 1 + FirstIndex(servers[1..], name)
  }

  /** `_getServer`: the first server called `name`, if any. */
  function Lookup(servers: seq<Server>, name: string): (r: Option<Server>)
    ensures r.None? <==> !HasServer(servers, name)
    ensures r.Some? ==> r.value.name == name && r.value in servers
  {
    var k := FirstIndex(servers, name);
    if k < |servers| then Some(servers[k]) else None
  }

  /** In a list with distinct names the lookup finds the only server with that name. */
  lemma LookupDistinct(servers: seq<Server>, i: nat)
    requires DistinctNames(servers) && i < |servers|
    ensures Lookup(servers, servers[i].name) == Some(servers[i])
  {
    var k := FirstIndex(servers, servers[i].name);
    assert !(k < i) && !(i < k);
  }

  /** The server list after `_updateServer(serverName, newName, newUrl)`. */
  function Updated(servers: seq<Server>, serverName: string, newName: Option<string>, newUrl: Option<string>): seq<Server> {
    var k := FirstIndex(servers, serverName);
    if k < |servers| then
      var s := servers[k];
      servers[k := Server(if newName.Some? then newName.value else s.name,
                          if newUrl.Some? then newUrl else s.url,
                          s.ignoreSsl)]
    else if newName.Some? then servers + [Server(newName.value, newUrl, None)]
    else servers
  }

  /**
   * `_updateServer` rewrites only the first server called `serverName`, setting
   * the name and the URL only when they are given; every other server is left
   * as it was.
   */
  lemma UpdatedInPlace(servers: seq<Server>, serverName: string, newName: Option<string>, newUrl: Option<string>)
    requires HasServer(servers, serverName)
    ensures var r := Updated(servers, serverName, newName, newUrl);
            var k := FirstIndex(servers, serverName);
            |r| == |servers| &&
            (forall i | 0 <= i < |r| && i != k :: r[i] == servers[i]) &&
            r[k].name == newName.GetOr(serverName) &&
            r[k].url == (if newUrl.Some? then newUrl else servers[k].url) &&
            r[k].ignoreSsl == servers[k].ignoreSsl
  {
  }

  /** With no server called `serverName`, a new server is appended only when a new name is given. */
  lemma UpdatedWhenMissing(servers: seq<Server>, serverName: string, newName: Option<string>, newUrl: Option<string>)
    requires !HasServer(servers, serverName)
    ensures newName.None? ==> Updated(servers, serverName, newName, newUrl) == servers
    ensures newName.Some? ==> Updated(servers, serverName, newName, newUrl) == servers + [Server(newName.value, newUrl, None)]
  {
  }

  /** After changing a server's URL, looking the server up yields the new URL. */
  lemma NewUrlIsFound(servers: seq<Server>, serverName: string, url: string)
    requires HasServer(servers, serverName)
    ensures Lookup(Updated(servers, serverName, None, Some(url)), serverName).Some?
    ensures Lookup(Updated(servers, serverName, None, Some(url)), serverName).value.url == Some(url)
  {
    var r := Updated(servers, serverName, None, Some(url));
    var k := FirstIndex(servers, serverName);
    assert forall i | 0 <= i < k :: r[i] == servers[i];
    assert FirstIndex(r, serverName) == k by {
      assert r[k].name == serverName;
      assert forall i | 0 <= i < k :: r[i].name != serverName;
    }
  }

  /** Renaming a server to a name no server has keeps the names distinct. */
  lemma RenameToFreshKeepsDistinct(servers: seq<Server>, serverName: string, newName: string, newUrl: Option<string>)
    requires DistinctNames(servers) && !HasServer(servers, newName)
    ensures DistinctNames(Updated(servers, serverName, Some(newName), newUrl))
  {
    var r := Updated(servers, serverName, Some(newName), newUrl);
    var k := FirstIndex(servers, serverName);
    forall i, j | 0 <= i < j < |r| ensures r[i].name != r[j].name {
      if k < |servers| {
        if i == k {
          assert servers[j] in servers;
        } else if j == k {
          assert servers[i] in servers;
        }
      } else {
        if j == |servers| {
          assert servers[i] in servers;
        }
      }
    }
  }

  /** Unlike `addServer`, renaming does not check for a clash: two servers can end up with one name. */
  lemma RenameCanDuplicate()
    ensures var servers := [Server("a", None, None), Server("b", None, None)];
            DistinctNames(servers) &&
            !DistinctNames(Updated(servers, "a", Some("b"), None))
  {
    var servers := [Server("a", None, None), Server("b", None, None)];
    assert FirstIndex(servers, "a") == 0;
    var r := Updated(servers, "a", Some("b"), None);
    assert r[0].name == r[1].name;
  }

  /** Removing a name no server has leaves the list as it was. */
  lemma RemoveAbsentServer(servers: seq<Server>, name: string)
    requires !HasServer(servers, name)
    ensures Filter((s: Server) => s.name != name, servers) == servers
  {
    FilterKeepsAll((s: Server) => s.name != name, servers);
  }

  /** Removing a server that was just added restores the list from before the addition. */
  lemma RemoveServerUndoesAdd(servers: seq<Server>, name: string, url: string)
    requires !HasServer(servers, name)
    ensures Filter((s: Server) => s.name != name, servers + [Server(name, Some(url), None)]) == servers
  {
    var f := (s: Server) => s.name != name;
    FilterConcat(f, servers, [Server(name, Some(url), None)]);
    FilterKeepsAll(f, servers);
    assert Filter(f, [Server(name, Some(url), None)]) == [];
  }

  /** The token object after `_updateServerPassword(name, token)`; nothing stored counts as `{}`. */
  function WithToken(stored: Option<map<string, string>>, name: string, token: string): map<string, string> {
    stored.GetOr(map[])[name := token]
  }

  /** `_getServerPassword(name)`. */
  function TokenOf(stored: Option<map<string, string>>, name: string): (r: Option<string>)
    ensures stored.None? ==> r.None?
  {
    if stored.None? then None
    else if name in stored.value then Some(stored.value[name])
    else None
  }

  /** A saved token is read back, and saving it leaves every other server's token as it was. */
  lemma TokenRoundTrip(stored: Option<map<string, string>>, name: string, token: string, other: string)
    requires other != name
    ensures TokenOf(Some(WithToken(stored, name, token)), name) == Some(token)
    ensures TokenOf(Some(WithToken(stored, name, token)), other) == TokenOf(stored, other)
  {
  }

  /** The outcome of `getConfig` for a selection. */
  function ConfigFor(servers: seq<Server>, tokens: Option<map<string, string>>, selected: string): (r: Result<Config, ConfigError>)
    ensures r.Failure? <==> !HasServer(servers, selected)
    ensures r.Failure? ==> r.error == NoSuchServer(selected)
  {
    match Lookup(servers, selected)
    case None => Failure(NoSuchServer(selected))
    case Some(s) => Success(Config(s.url, TokenOf(tokens, selected), s.ignoreSsl.GetOr(true)))
  }

  /**
   * The first server with a name supplies that name's settings, even when a later
   * server shares the name, and a missing `ignoreSsl` means certificates are not checked.
   */
  lemma ConfigOfFirstMatch(servers: seq<Server>, tokens: Option<map<string, string>>, i: nat)
    requires i < |servers| && forall j | 0 <= j < i :: servers[j].name != servers[i].name
    ensures ConfigFor(servers, tokens, servers[i].name) ==
            Success(Config(servers[i].url, TokenOf(tokens, servers[i].name),
                           if servers[i].ignoreSsl.Some? then servers[i].ignoreSsl.value else true))
  {
    assert FirstIndex(servers, servers[i].name) == i;
  }

  /**
   * `_updateServer` never gives a server an `ignoreSsl`: a list in which no server
   * has one keeps that shape, whatever is renamed, re-addressed or appended.
   */
  lemma UpdatedNeverSetsIgnoreSsl(servers: seq<Server>, serverName: string, newName: Option<string>, newUrl: Option<string>)
    requires forall i | 0 <= i < |servers| :: servers[i].ignoreSsl.None?
    ensures var r := Updated(servers, serverName, newName, newUrl);
            forall i | 0 <= i < |r| :: r[i].ignoreSsl.None?
  {
  }

  /** A server as `addServer` stores it resolves to `ignoreSsl = true`: certificates are not checked. */
  lemma AddedServerSkipsCertificateCheck(servers: seq<Server>, tokens: Option<map<string, string>>, name: string, url: string)
    requires !HasServer(servers, name)
    ensures ConfigFor(servers + [Server(name, Some(url), None)], tokens, name) ==
            Success(Config(Some(url), TokenOf(tokens, name), true))
  {
    var added := servers + [Server(name, Some(url), None)];
    assert added[|servers|].name == name;
    assert forall j | 0 <= j < |servers| :: added[j] == servers[j];
    ConfigOfFirstMatch(added, tokens, |servers|);
  }

  class ParamsProvider {
    var items: seq<Server>
    var selectedConfig: string
    var persisted: Option<seq<Server>>
    var storedTokens: Option<map<string, string>>

    /** Loads the saved servers (none saved means an empty list); nothing is selected. */
    constructor (saved: Option<seq<Server>>, tokens: Option<map<string, string>>)
      ensures items == saved.GetOr([]) && selectedConfig == ""
      ensures persisted == saved && storedTokens == tokens
    {
      items := saved.GetOr([]);
      selectedConfig := "";
      persisted := saved;
      storedTokens := tokens;
    }

    /** Adds a server unless one with that name exists; on success the token is saved too. */
    method AddServer(name: string, url: string, password: string) returns (added: bool)
      modifies this
      ensures added <==> !HasServer(old(items), name)
      ensures !added ==> items == old(items) && persisted == old(persisted) && storedTokens == old(storedTokens)
      ensures added ==> items == old(items) + [Server(name, Some(url), None)] && persisted == Some(items)
      ensures added ==> storedTokens == Some(WithToken(old(storedTokens), name, password))
      ensures DistinctNames(old(items)) ==> DistinctNames(items)
      ensures selectedConfig == old(selectedConfig)
    {
      var exists_ := false;
      var i := 0;
      while i < |items|
        invariant 0 <= i <= |items|
        invariant exists_ <==> HasServer(items[..i], name)
      {
        if items[i].name == name {
          exists_ := true;
        }
        assert items[..i + 1] == items[..i] + [items[i]];
        i := i + 1;
      }
      assert items[..i] == items;
      if exists_ {
        return false;
      }
      items := items + [Server(name, Some(url), None)];
      UpdateServerPassword(name, password);
      persisted := Some(items);
      return true;
    }

    /** Drops every server with that name and clears the selection if it was that server. */
    method RemoveServer(name: string)
      modifies this
      ensures items == Filter((s: Server) => s.name != name, old(items))
      ensures !HasServer(items, name)
      ensures persisted == Some(items) && storedTokens == old(storedTokens)
      ensures selectedConfig == if old(selectedConfig) == name then "" else old(selectedConfig)
    {
      items := Filter((s: Server) => s.name != name, items);
      persisted := Some(items);
      if selectedConfig == name {
        selectedConfig := "";
      }
    }

    function GetSelected(): (r: string)
      reads this
      ensures r == selectedConfig
    {
      selectedConfig
    }

    method SetSelected(name: string) returns (r: string)
      modifies this
      ensures selectedConfig == name && r == name
      ensures items == old(items) && persisted == old(persisted) && storedTokens == old(storedTokens)
    {
      selectedConfig := name;
      r := name;
    }

    /** `_getServer`: scans the servers in order and returns the first with that name. */
    method GetServer(name: string) returns (r: Option<Server>)
      ensures r == Lookup(items, name)
    {
      var index := 0;
      while index < |items|
        invariant 0 <= index <= |items|
        invariant forall i | 0 <= i < index :: items[i].name != name
      {
        if items[index].name == name {
          return Some(items[index]);
        }
        index := index + 1;
      }
      return None;
    }

    /**
     * `_updateServer`: walks the servers until the first one called
     * `serverName`, rewrites it in place and stops; when none matches and a new
     * name is given, appends a new server. The list is then saved.
     */
    method UpdateServer(serverName: string, newName: Option<string>, newUrl: Option<string>)
      modifies this
      ensures items == Updated(old(items), serverName, newName, newUrl)
      ensures persisted == Some(items)
      ensures selectedConfig == old(selectedConfig) && storedTokens == old(storedTokens)
    {
      var index := 0;
      while index < |items|
        invariant 0 <= index <= |items|
        invariant items == old(items)
        invariant forall i | 0 <= i < index :: items[i].name != serverName
      {
        if items[index].name == serverName {
          var s := items[index];
          if newName.Some? {
            s := s.(name := newName.value);
          }
          if newUrl.Some? {
            s := s.(url := newUrl);
          }
          items := items[index := s];
          break;
        }
        index := index + 1;
      }
      if index == |items| && newName.Some? {
        items := items + [Server(newName.value, newUrl, None)];
      }
      persisted := Some(items);
    }

    method UpdateServerPassword(name: string, token: string)
      modifies this
      ensures storedTokens == Some(WithToken(old(storedTokens), name, token))
      ensures items == old(items) && persisted == old(persisted) && selectedConfig == old(selectedConfig)
    {
      var all := if storedTokens.None? then map[] else storedTokens.value;
      all := all[name := token];
      storedTokens := Some(all);
    }

    function ServerPassword(name: string): (r: Option<string>)
      reads this
      ensures r == TokenOf(storedTokens, name)
    {
      TokenOf(storedTokens, name)
    }

    /** `saveNewUrl` with the prompt's answer as a parameter; a dismissed prompt changes nothing. */
    method SaveNewUrl(serverName: string, answer: Option<string>) returns (r: Option<string>)
      modifies this
      ensures r == answer
      ensures answer.None? ==> items == old(items) && persisted == old(persisted)
      ensures answer.Some? ==> items == Updated(old(items), serverName, None, answer) && persisted == Some(items)
      ensures selectedConfig == old(selectedConfig) && storedTokens == old(storedTokens)
    {
      if answer.None? {
        return None;
      }
      UpdateServer(serverName, None, answer);
      return answer;
    }

    /** `saveNewName` with the prompt's answer as a parameter; a dismissed prompt changes nothing. */
    method SaveNewName(serverName: string, answer: Option<string>) returns (r: Option<string>)
      modifies this
      ensures r == answer
      ensures answer.None? ==> items == old(items) && persisted == old(persisted)
      ensures answer.Some? ==> items == Updated(old(items), serverName, answer, None) && persisted == Some(items)
      ensures selectedConfig == old(selectedConfig) && storedTokens == old(storedTokens)
    {
      if answer.None? {
        return None;
      }
      UpdateServer(serverName, answer, None);
      return answer;
    }

    /** `saveNewPassword` with the prompt's answer as a parameter; a dismissed prompt changes nothing. */
    method SaveNewPassword(serverName: string, answer: Option<string>) returns (r: Option<string>)
      modifies this
      ensures r == answer
      ensures answer.None? ==> storedTokens == old(storedTokens)
      ensures answer.Some? ==> storedTokens == Some(WithToken(old(storedTokens), serverName, answer.value))
      ensures items == old(items) && persisted == old(persisted) && selectedConfig == old(selectedConfig)
    {
      if answer.Some? {
        UpdateServerPassword(serverName, answer.value);
      }
      return answer;
    }

    /** `getConfig`: the settings of the selected server, or an error when it does not exist. */
    method GetConfig() returns (r: Result<Config, ConfigError>)
      ensures r == ConfigFor(items, storedTokens, selectedConfig)
    {
      var name := GetSelected();
      var config := GetServer(name);
      if config.None? {
        return Failure(NoSuchServer(name));
      }
      var token := ServerPassword(name);
      var ignoreSsl := if config.value.ignoreSsl.Some? then config.value.ignoreSsl.value else true;
      return Success(Config(config.value.url, token, ignoreSsl));
    }
  }
}
