/** The shardmaster's configuration, and the search for the server of a key (config.cpp). */
module Configs {
  import opened SimpleKv
  import opened Shards

  datatype ServerConfig = ServerConfig(server: string, shards: seq<Shard>)

  /** Some shard of the server contains the upper-case key. */
  predicate Responsible(sc: ServerConfig, key: string) {
    exists i :: 0 <= i < |sc.shards| && Contains(sc.shards[i], ToUpper(key))
  }

  /** `get_server`: the first responsible server. */
  function GetServer(servers: seq<ServerConfig>, key: string): Option<string> {
    if servers == [] then None
    else if Responsible(servers[0], key) then Some(servers[0].server)
    else GetServer(servers[1..], key)
  }

  /** A server is found exactly if one is responsible, and it is the first responsible one. */
  lemma {:induction false} GetServerFinds(servers: seq<ServerConfig>, key: string)
    ensures GetServer(servers, key).Some? <==> exists sc :: sc in servers && Responsible(sc, key)
    ensures GetServer(servers, key).Some? ==> exists sc ::
              sc in servers && Responsible(sc, key)
              && sc.server == GetServer(servers, key).value
    ensures forall i :: 0 <= i < |servers| && Responsible(servers[i], key)
                        && (forall j :: 0 <= j < i ==> !Responsible(servers[j], key))
              ==> GetServer(servers, key) == Some(servers[i].server)
  {
    if servers != [] {
      GetServerFinds(servers[1..], key);
      assert forall sc :: sc in servers <==> sc == servers[0] || sc in servers[1..];
    }
  }

  /** At most one server of the configuration is responsible for the key. */
  ghost predicate Unambiguous(servers: seq<ServerConfig>, key: string) {
    forall a, b :: a in servers && b in servers && Responsible(a, key) && Responsible(b, key) ==> a.server == b.server
  }

  /** When the responsible server is unique, the order of the servers does not matter. */
  lemma OrderDoesNotMatter(servers: seq<ServerConfig>, servers': seq<ServerConfig>, key: string)
    requires multiset(servers') == multiset(servers) && Unambiguous(servers, key)
    ensures GetServer(servers', key) == GetServer(servers, key)
  {
    GetServerFinds(servers, key);
    GetServerFinds(servers', key);
    forall sc
      ensures sc in servers' <==> sc in servers
    {
      assert sc in multiset(servers') <==> sc in multiset(servers);
    }
  }

  /** A configuration that distributes the shards of a split: shard `i` is one of those of server `owner[i]`, and
      nobody has any other shard. A server may have many shards, or none. */
  ghost predicate Deals(servers: seq<ServerConfig>, shards: seq<Shard>, owner: seq<nat>) {
    && |owner| == |shards|
    && (forall i :: 0 <= i < |shards| ==> owner[i] < |servers| && shards[i] in servers[owner[i]].shards)
    && forall k :: 0 <= k < |servers| ==> AllOwned(servers[k], shards, owner, k)
  }

  /** The shards of the server are those that it owns. */
  ghost predicate AllOwned(sc: ServerConfig, shards: seq<Shard>, owner: seq<nat>, k: nat)
    requires |owner| == |shards|
  {
    forall shard :: shard in sc.shards ==> exists i :: 0 <= i < |shards| && owner[i] == k && shards[i] == shard
  }

  /** With the shards of a split distributed to the servers in whatever way, no key at all is the business of two
      servers, so the order of the servers never matters; and a key has a server if and only if it is in a shard. */
  lemma RoutingIsUnambiguous(servers: seq<ServerConfig>, servers': seq<ServerConfig>, shards: seq<Shard>,
                             owner: seq<nat>,
                             n: nat, g: nat, key: string)
    requires IsSplit(shards, n, g) && Deals(servers, shards, owner) && multiset(servers') == multiset(servers)
    ensures Unambiguous(servers, key) && GetServer(servers', key) == GetServer(servers, key)
    ensures GetServer(servers, key).Some? <==> InSomeShard(shards, ToUpper(key))
  {
    hide Contains, ToUpper, IsSplit;
    GetServerFinds(servers, key);
    if i :| 0 <= i < |shards| && Contains(shards[i], ToUpper(key)) {
      forall j | 0 <= j < |shards| && Contains(shards[j], ToUpper(key))
        ensures j == i
      {
        SplitSize(shards, n, g);
        AtMostOneShard(shards, n, g, ToUpper(key), i, j);
      }
      OnlyResponsible(servers, shards, owner, key, i);
    } else {
      forall sc | sc in servers
        ensures !Responsible(sc, key)
      {
        if Responsible(sc, key) {
          var i := ResponsibleShard(servers, shards, owner, key, sc);
        }
      }
    }
    OrderDoesNotMatter(servers, servers', key);
  }

  lemma SplitSize(shards: seq<Shard>, n: nat, g: nat)
    requires IsSplit(shards, n, g)
    ensures |shards| == n
  {
  }

  /** Routing is total: with the shards of a split distributed to the servers in whatever way, and the servers in any
      order, every key with enough leading alphanumeric characters has a server, and only the one whose shard contains
      it. */
  lemma RoutingIsTotal(servers: seq<ServerConfig>, servers': seq<ServerConfig>, shards: seq<Shard>, owner: seq<nat>,
                       n: nat, g: nat, key: string) returns (i: nat)
    requires IsSplit(shards, n, g) && Deals(servers, shards, owner) && multiset(servers') == multiset(servers)
    requires |key| >= g && AllValid(key[..g])
    ensures i < n == |owner| && owner[i] < |servers| && Contains(shards[i], ToUpper(key))
    ensures GetServer(servers', key) == Some(servers[owner[i]].server)
  {
    hide Contains, ToUpper, AllValid;
    i := ExactlyOneShard(shards, n, g, key);
    OnlyResponsible(servers, shards, owner, key, i);
    GetServerFinds(servers, key);
    OrderDoesNotMatter(servers, servers', key);
  }

  /** A responsible server owns a shard that contains the key. */
  lemma ResponsibleShard(servers: seq<ServerConfig>, shards: seq<Shard>, owner: seq<nat>, key: string, sc: ServerConfig)
      returns (i: nat)
    requires Deals(servers, shards, owner) && sc in servers && Responsible(sc, key)
    ensures i < |shards| && Contains(shards[i], ToUpper(key)) && servers[owner[i]] == sc
  {
    hide Contains, ToUpper;
    var k :| 0 <= k < |servers| && servers[k] == sc;
    var j :| 0 <= j < |sc.shards| && Contains(sc.shards[j], ToUpper(key));
    assert AllOwned(sc, shards, owner, k) && sc.shards[j] in sc.shards;
    var x :| 0 <= x < |shards| && owner[x] == k && shards[x] == sc.shards[j];
    i := x;
  }

  lemma OnlyResponsible(servers: seq<ServerConfig>, shards: seq<Shard>, owner: seq<nat>, key: string, i: nat)
    requires Deals(servers, shards, owner) && i < |shards| && Contains(shards[i], ToUpper(key))
    requires forall j :: 0 <= j < |shards| && Contains(shards[j], ToUpper(key)) ==> j == i
    ensures servers[owner[i]] in servers && Responsible(servers[owner[i]], key)
    ensures forall sc :: sc in servers && Responsible(sc, key) ==> sc == servers[owner[i]]
  {
    hide Contains, ToUpper;
    var sc := servers[owner[i]];
    var j :| 0 <= j < |sc.shards| && sc.shards[j] == shards[i];
    assert Contains(sc.shards[j], ToUpper(key));
    forall other | other in servers && Responsible(other, key)
      ensures other == sc
    {
      var x := ResponsibleShard(servers, shards, owner, key, other);
    }
  }
}
