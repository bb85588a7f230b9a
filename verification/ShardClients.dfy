/** The sharded client's multi-key operations (shardkv_client.cpp).

The client groups the keys of a request by server, sends one request to each server, and puts the
answers back in order. Servers are simple stores; the configuration is fixed and every server can be
reached. The order in which the servers are asked is left open.
 */
module ShardClients {
  import opened SimpleKv
  import opened Configs

  type Server = string

  /** The contents of each server. */
  type World = map<Server, Contents>

  function ContentsOf(w: World, server: Server): Contents {
    if server in w then w[server] else map[]
  }

  // ---------------------------------------------------------------------------------------
  // Requests one key at a time

  /** `Get` of one key. */
  function GetOne(servers: seq<ServerConfig>, w: World, key: Key): Option<Value> {
    match GetServer(servers, key)
    case None => None
    case Some(server) =>
      match Apply(Get(key), ContentsOf(w, server)).answer
      case One(v) => Some(v)
      case _ => None
  }

  /** The first `n` pairs put one after another; a key without a server is skipped, as a `Put` of it alone fails. */
  function PutEach(servers: seq<ServerConfig>, w: World, keys: seq<Key>, values: seq<Value>, n: nat): World
    requires n <= |keys| && n <= |values|
  {
    if n == 0 then w
    else
      var w' := PutEach(servers, w, keys, values, n - 1);
      match GetServer(servers, keys[n - 1])
      case None => w'
      case Some(server) => w'[server := Apply(Put(keys[n - 1], values[n - 1]), ContentsOf(w', server)).contents]
  }

  // ---------------------------------------------------------------------------------------
  // Grouping

  /** The positions below `n` whose key belongs to `server`. */
  function Part<T>(servers: seq<ServerConfig>, keys: seq<Key>, server: Server, n: nat, xs: seq<T>): seq<T>
    requires n <= |keys| && n <= |xs|
  {
    if n == 0 then []
    else Part(servers, keys, server, n - 1, xs) + if GetServer(servers, keys[n - 1]) == Some(server) then [xs[n - 1]]
        else []
  }

  predicate AllRouted(servers: seq<ServerConfig>, keys: seq<Key>, n: nat)
    requires n <= |keys|
  {
    forall i :: 0 <= i < n ==> GetServer(servers, keys[i]).Some?
  }

  /** The group of a server: its keys, and the values that go with them. */
  datatype Group = Group(keys: seq<Key>, values: seq<Value>)

  type Groups = map<Server, Group>

  ghost predicate Grouped(servers: seq<ServerConfig>, keys: seq<Key>, values: seq<Value>, n: nat, groups: Groups)
    requires n <= |keys| && n <= |values|
  {
    && (forall i :: 0 <= i < n && GetServer(servers, keys[i]).Some? ==> GetServer(servers, keys[i]).value in groups)
    && forall server :: server in groups ==>
         groups[server] == Group(Part(servers, keys, server, n, keys), Part(servers, keys, server, n, values))
  }

  function GroupOf(groups: Groups, server: Server): Group {
    if server in groups then groups[server] else Group([], [])
  }

  lemma {:induction false} EmptyPart<T>(servers: seq<ServerConfig>, keys: seq<Key>, server: Server, n: nat, xs: seq<T>)
    requires n <= |keys| && n <= |xs| && forall i :: 0 <= i < n ==> GetServer(servers, keys[i]) != Some(server)
    ensures Part(servers, keys, server, n, xs) == []
  {
    if n > 0 {
      EmptyPart(servers, keys, server, n - 1, xs);
    }
  }

  lemma GroupMore(servers: seq<ServerConfig>, keys: seq<Key>, values: seq<Value>, n: nat, groups: Groups,
                  server: Server, groups': Groups)
    requires n < |keys| && n < |values| && Grouped(servers, keys, values, n, groups)
               && GetServer(servers, keys[n]) == Some(server)
    requires groups'
               == groups[server :=
                         Group(GroupOf(groups, server).keys + [keys[n]], GroupOf(groups, server).values + [values[n]])]
    ensures Grouped(servers, keys, values, n + 1, groups')
  {
    hide GetServer;
    if server !in groups {
      EmptyPart(servers, keys, server, n, keys);
      EmptyPart(servers, keys, server, n, values);
    }
    forall other | other in groups'
      ensures groups'[other]
                == Group(Part(servers, keys, other, n + 1, keys), Part(servers, keys, other, n + 1, values))
    {
      if other != server {
        assert groups'[other] == groups[other];
        assert Part(servers, keys, other, n + 1, keys) == Part(servers, keys, other, n, keys) + [];
        assert Part(servers, keys, other, n + 1, values) == Part(servers, keys, other, n, values) + [];
      }
    }
  }

  lemma GroupSkip(servers: seq<ServerConfig>, keys: seq<Key>, values: seq<Value>, n: nat, groups: Groups)
    requires n < |keys| && n < |values| && Grouped(servers, keys, values, n, groups)
               && GetServer(servers, keys[n]).None?
    ensures Grouped(servers, keys, values, n + 1, groups)
  {
    hide GetServer;
    forall other | other in groups
      ensures groups[other] == Group(Part(servers, keys, other, n + 1, keys), Part(servers, keys, other, n + 1, values))
    {
      assert Part(servers, keys, other, n + 1, keys) == Part(servers, keys, other, n, keys) + [];
      assert Part(servers, keys, other, n + 1, values) == Part(servers, keys, other, n, values) + [];
    }
  }

  /** The loop that fills `server_pairs`. */
  method GroupByServer(servers: seq<ServerConfig>, keys: seq<Key>, values: seq<Value>)
      returns (valid: bool, groups: Groups)
    requires |keys| <= |values|
    ensures valid <==> AllRouted(servers, keys, |keys|)
    ensures Grouped(servers, keys, values, |keys|, groups)
  {
    hide GetServer;
    valid, groups := true, map[];
    for i := 0 to |keys|
      invariant valid <==> AllRouted(servers, keys, i)
      invariant Grouped(servers, keys, values, i, groups)
    {
      match GetServer(servers, keys[i]) {
        case None =>
          GroupSkip(servers, keys, values, i, groups);
          valid := false;
        case Some(server) =>
          var g := GroupOf(groups, server);
          ghost var before := groups;
          groups := groups[server := Group(g.keys + [keys[i]], g.values + [values[i]])];
          GroupMore(servers, keys, values, i, before, server, groups);
      }
    }
  }

  // ---------------------------------------------------------------------------------------
  // MultiPut

  lemma {:induction false} PartLength<S,
      T>(servers: seq<ServerConfig>, keys: seq<Key>, server: Server, n: nat, xs: seq<S>, ys: seq<T>)
    requires n <= |keys| && n <= |xs| && n <= |ys|
    ensures |Part(servers, keys, server, n, xs)| == |Part(servers, keys, server, n, ys)|
  {
    if n > 0 {
      PartLength(servers, keys, server, n - 1, xs, ys);
    }
  }

  lemma {:induction false} PutFirstPrefix(m: Contents, ks: seq<Key>, vs: seq<Value>, ks': seq<Key>, vs': seq<Value>,
                                          n: nat)
    requires n <= |ks| && n <= |vs| && ks <= ks' && vs <= vs'
    ensures PutFirst(m, ks', vs', n) == PutFirst(m, ks, vs, n)
  {
    if n > 0 {
      PutFirstPrefix(m, ks, vs, ks', vs', n - 1);
    }
  }

  /** Putting one key at a time does to each server what putting its own part does. */
  lemma {:induction false} PutEachByServer(servers: seq<ServerConfig>, w: World, keys: seq<Key>, values: seq<Value>,
                                           n: nat, server: Server)
    requires n <= |keys| && n <= |values|
    ensures var ks, vs := Part(servers, keys, server, n, keys), Part(servers, keys, server, n, values);
            |ks| == |vs| && ContentsOf(PutEach(servers, w, keys, values, n), server)
                == PutFirst(ContentsOf(w, server), ks, vs, |ks|)
  {
    PartLength(servers, keys, server, n, keys, values);
    if n > 0 {
      PutEachByServer(servers, w, keys, values, n - 1, server);
      var ks, vs := Part(servers, keys, server, n - 1, keys), Part(servers, keys, server, n - 1, values);
      if GetServer(servers, keys[n - 1]) == Some(server) {
        PutFirstPrefix(ContentsOf(w, server), ks, vs, ks + [keys[n - 1]], vs + [values[n - 1]], |ks|);
      } else {
        assert ks + [] == ks && vs + [] == vs;
      }
    }
  }

  /** What the requests to the servers in `done` have made of the world. */
  ghost predicate PutSoFar(servers: seq<ServerConfig>, w: World, keys: seq<Key>, values: seq<Value>, done: set<Server>,
                           w': World)
    requires |keys| <= |values|
  {
    forall server :: ContentsOf(w', server)
        == ContentsOf(if server in done then PutEach(servers, w, keys, values, |keys|) else w, server)
  }

  lemma PutGroup(servers: seq<ServerConfig>, w: World, keys: seq<Key>, values: seq<Value>, groups: Groups,
                 done: set<Server>, w1: World, server: Server)
    requires |keys| <= |values| && Grouped(servers, keys, values, |keys|, groups) && server in groups && server !in done
    requires PutSoFar(servers, w, keys, values, done, w1)
    ensures var o := Apply(MultiPut(groups[server].keys, groups[server].values), ContentsOf(w1, server));
            o.answer == Done && PutSoFar(servers, w, keys, values, done + {server}, w1[server := o.contents])
  {
    hide GetServer, PutEach;
    PutEachByServer(servers, w, keys, values, |keys|, server);
    assert ContentsOf(w1, server) == ContentsOf(w, server);
  }

  lemma PutsComplete(servers: seq<ServerConfig>, w: World, keys: seq<Key>, values: seq<Value>, groups: Groups,
                     w': World, server: Server)
    requires |keys| <= |values| && Grouped(servers, keys, values, |keys|, groups)
               && PutSoFar(servers, w, keys, values, groups.Keys, w')
    ensures ContentsOf(w', server) == ContentsOf(PutEach(servers, w, keys, values, |keys|), server)
  {
    hide GetServer, PutEach;
    if server !in groups {
      EmptyPart(servers, keys, server, |keys|, keys);
      PutEachByServer(servers, w, keys, values, |keys|, server);
    }
  }

  /** `MultiPut`: when every key has a server it does to every server what single puts in the order of the request do,
      in whatever order the servers are asked; otherwise it does nothing and reports failure. */
  method MultiPutSharded(servers: seq<ServerConfig>, w: World, keys: seq<Key>, values: seq<Value>)
      returns (ok: bool, w': World)
    requires |keys| <= |values|
    ensures ok <==> AllRouted(servers, keys, |keys|)
    ensures !ok ==> w' == w
    ensures ok ==> forall server ::
              ContentsOf(w', server)
              == ContentsOf(PutEach(servers, w, keys, values, |keys|), server)
  {
    hide GetServer, PutEach;
    var valid, groups := GroupByServer(servers, keys, values);
    w' := w;
    if !valid {
      return false, w;
    }
    var todo := groups.Keys;
    while todo != {}
      invariant todo <= groups.Keys && PutSoFar(servers, w, keys, values, groups.Keys - todo, w')
      decreases |todo|
    {
      var server :| server in todo;
      PutGroup(servers, w, keys, values, groups, groups.Keys - todo, w', server);
      var o := Apply(MultiPut(groups[server].keys, groups[server].values), ContentsOf(w', server));
      if o.answer == Fail {
        return false, w;
      }
      w' := w'[server := o.contents];
      assert groups.Keys - (todo - {server}) == groups.Keys - todo + {server};
      todo := todo - {server};
    }
    assert groups.Keys - todo == groups.Keys;
    forall server
      ensures ContentsOf(w', server) == ContentsOf(PutEach(servers, w, keys, values, |keys|), server)
    {
      PutsComplete(servers, w, keys, values, groups, w', server);
    }
    ok := true;
  }

  lemma GetSame(servers: seq<ServerConfig>, w: World, w': World, key: Key)
    requires forall server :: ContentsOf(w', server) == ContentsOf(w, server)
    ensures GetOne(servers, w', key) == GetOne(servers, w, key)
  {
    hide GetServer, Apply, ContentsOf;
  }

  lemma GetAfterPut(servers: seq<ServerConfig>, w: World, keys: seq<Key>, values: seq<Value>, n: nat, key: Key)
    requires 0 < n <= |keys| && n <= |values|
    ensures GetOne(servers, PutEach(servers, w, keys, values, n), key)
              == if keys[n - 1] == key && GetServer(servers, key).Some? then Some(values[n - 1])
                 else GetOne(servers, PutEach(servers, w, keys, values, n - 1), key)
  {
    hide GetServer;
    var w' := PutEach(servers, w, keys, values, n - 1);
    assert PutEach(servers, w, keys, values, n)
        == match GetServer(servers, keys[n - 1])
           case None => w'
           case Some(server) => w'[server := Apply(Put(keys[n - 1], values[n - 1]), ContentsOf(w', server)).contents];
    hide PutEach;
  }

  lemma PutNone(servers: seq<ServerConfig>, w: World, keys: seq<Key>, values: seq<Value>)
    ensures PutEach(servers, w, keys, values, 0) == w
  {
  }

  /** What a client reads after the first `n` pairs have been put: for a key among them that has a server the last value
      put for it, for any other key what it read before. Any world with the same contents gives the same. */
  lemma {:induction false} GetAfterPuts(servers: seq<ServerConfig>, w: World, keys: seq<Key>, values: seq<Value>,
                                        n: nat,
                                        w': World, key: Key)
    requires n <= |keys| && n <= |values|
    requires forall server :: ContentsOf(w', server) == ContentsOf(PutEach(servers, w, keys, values, n), server)
    ensures forall i :: 0 <= i < n && keys[i] == key && (forall j :: i < j < n ==> keys[j] != key)
                        && GetServer(servers, key).Some?
              ==> GetOne(servers, w', key) == Some(values[i])
    ensures key !in keys[..n] || GetServer(servers, key).None? ==> GetOne(servers, w', key) == GetOne(servers, w, key)
  {
    hide GetServer, GetOne, ContentsOf, PutEach;
    GetSame(servers, PutEach(servers, w, keys, values, n), w', key);
    if n > 0 {
      GetAfterPut(servers, w, keys, values, n, key);
      assert keys[..n] == keys[..n - 1] + [keys[n - 1]];
      GetAfterPuts(servers, w, keys, values, n - 1, PutEach(servers, w, keys, values, n - 1), key);
    } else {
      PutNone(servers, w, keys, values);
    }
  }

  // ---------------------------------------------------------------------------------------
  // MultiGet

  lemma {:induction false} PartMember(servers: seq<ServerConfig>, keys: seq<Key>, server: Server, n: nat, key: Key)
    requires n <= |keys|
    ensures key in Part(servers, keys, server, n, keys) <==> exists i ::
              0 <= i < n && keys[i] == key
              && GetServer(servers, keys[i]) == Some(server)
  {
    hide GetServer;
    if n > 0 {
      PartMember(servers, keys, server, n - 1, key);
    }
  }

  /** The values of the keys whose servers have answered. */
  ghost predicate Collected(servers: seq<ServerConfig>, w: World, keys: seq<Key>, done: set<Server>, found: map<Key,
                            Value>) {
    forall i :: 0 <= i < |keys| && GetServer(servers, keys[i]).Some? && GetServer(servers, keys[i]).value in done ==>
      keys[i] in found && GetOne(servers, w, keys[i]) == Some(found[keys[i]])
  }

  /** What one server answers about its keys. */
  lemma GroupAnswers(servers: seq<ServerConfig>, w: World, keys: seq<Key>, server: Server, part: seq<Key>)
    requires part == Part(servers, keys, server, |keys|, keys)
    ensures var a := Apply(MultiGet(part), ContentsOf(w, server)).answer;
            && (a.Many? ==> |a.values| == |part| && forall j :: 0 <= j < |part| ==>
                GetOne(servers, w, part[j]) == Some(a.values[j]))
            && (!a.Many? ==> a == Fail && exists i :: 0 <= i < |keys| && GetOne(servers, w, keys[i]) == None)
  {
    hide GetServer;
    forall j | 0 <= j < |part|
      ensures GetServer(servers, part[j]) == Some(server) && exists i :: 0 <= i < |keys| && keys[i] == part[j]
    {
      PartMember(servers, keys, server, |keys|, part[j]);
    }
    if !AllIn(part, ContentsOf(w, server)) {
      var j :| 0 <= j < |part| && part[j] !in ContentsOf(w, server);
      assert GetOne(servers, w, part[j]) == None;
    }
  }

  /** The loop over the answer of one server. */
  method StoreValues(part: seq<Key>, values: seq<Value>, found: map<Key, Value>, ghost want: Key -> Option<Value>)
      returns (found': map<Key, Value>)
    requires |values| == |part| && forall j :: 0 <= j < |part| ==> want(part[j]) == Some(values[j])
    ensures forall k :: k in found && k !in part ==> k in found' && found'[k] == found[k]
    ensures forall k :: k in part ==> k in found' && want(k) == Some(found'[k])
  {
    found' := found;
    for j := 0 to |part|
      invariant forall k :: k in found && k !in part ==> k in found' && found'[k] == found[k]
      invariant forall k :: k in part[..j] ==> k in found' && want(k) == Some(found'[k])
    {
      found' := found'[part[j] := values[j]];
      assert part[..j + 1] == part[..j] + [part[j]];
    }
    assert part[..|part|] == part;
  }

  lemma CollectMore(servers: seq<ServerConfig>, w: World, keys: seq<Key>, done: set<Server>, found: map<Key, Value>,
                    server: Server,
                    part: seq<Key>, found': map<Key, Value>)
    requires Collected(servers, w, keys, done, found) && part == Part(servers, keys, server, |keys|, keys)
    requires forall k :: k in found && k !in part ==> k in found' && found'[k] == found[k]
    requires forall k :: k in part ==> k in found' && GetOne(servers, w, k) == Some(found'[k])
    ensures Collected(servers, w, keys, done + {server}, found')
  {
    hide GetServer, GetOne;
    forall i | 0 <= i < |keys| && GetServer(servers, keys[i]).Some?
        && GetServer(servers, keys[i]).value in done + {server}
      ensures keys[i] in found' && GetOne(servers, w, keys[i]) == Some(found'[keys[i]])
    {
      PartMember(servers, keys, server, |keys|, keys[i]);
    }
  }

  /** All keys of the request can be had one at a time. */
  ghost predicate AllFound(servers: seq<ServerConfig>, w: World, keys: seq<Key>) {
    forall i :: 0 <= i < |keys| ==> GetOne(servers, w, keys[i]).Some?
  }

  /** `MultiGet`: the values that single gets return, in the order of the request and with its repetitions; nothing if
      one of these gets would fail. */
  method MultiGetSharded(servers: seq<ServerConfig>, w: World, keys: seq<Key>) returns (r: Option<seq<Value>>)
    ensures r.Some? <==> AllFound(servers, w, keys)
    ensures r.Some? ==> |r.value| == |keys| && forall i :: 0 <= i < |keys| ==>
              GetOne(servers, w, keys[i]) == Some(r.value[i])
  {
    hide GetServer, Part, Apply, GetOne;
    var valid, groups := GroupByServer(servers, keys, keys);
    if !valid {
      UnroutedNotFound(servers, w, keys);
      return None;
    }
    var found: map<Key, Value> := map[];
    var todo := groups.Keys;
    while todo != {}
      invariant todo <= groups.Keys && Collected(servers, w, keys, groups.Keys - todo, found)
      decreases |todo|
    {
      var server :| server in todo;
      var part := groups[server].keys;
      GroupAnswers(servers, w, keys, server, part);
      var a := Apply(MultiGet(part), ContentsOf(w, server)).answer;
      if !a.Many? {
        return None;
      }
      ghost var before := found;
      found := StoreValues(part, a.values, found, k => GetOne(servers, w, k));
      CollectMore(servers, w, keys, groups.Keys - todo, before, server, part, found);
      assert groups.Keys - (todo - {server}) == groups.Keys - todo + {server};
      todo := todo - {server};
    }
    assert groups.Keys - todo == groups.Keys;
    var values := Reassemble(servers, w, keys, found);
    return Some(values);
  }

  lemma UnroutedNotFound(servers: seq<ServerConfig>, w: World, keys: seq<Key>)
    requires !AllRouted(servers, keys, |keys|)
    ensures !AllFound(servers, w, keys)
  {
    hide GetServer;
    var i :| 0 <= i < |keys| && GetServer(servers, keys[i]).None?;
    assert GetOne(servers, w, keys[i]) == None;
  }

  /** The last loop: one value for each key, in order. */
  method Reassemble(ghost servers: seq<ServerConfig>, ghost w: World, keys: seq<Key>, found: map<Key, Value>)
      returns (values: seq<Value>)
    requires forall i :: 0 <= i < |keys| ==> keys[i] in found && GetOne(servers, w, keys[i]) == Some(found[keys[i]])
    ensures |values| == |keys| && forall i :: 0 <= i < |keys| ==> GetOne(servers, w, keys[i]) == Some(values[i])
  {
    hide GetOne;
    values := [];
    for i := 0 to |keys|
      invariant |values| == i && forall j :: 0 <= j < i ==> GetOne(servers, w, keys[j]) == Some(values[j])
    {
      values := values + [found[keys[i]]];
    }
  }
}
