/** The server's bookkeeping for blocked clients and ready keys. */
module BlockedServers {
  import opened Wrappers
  import opened BlockedIndex

  datatype BType = List | Zset | Stream | Module | Wait | WaitAof | Postpone | PostponeTrim | Shutdown | LazyFree

  datatype ObjType = ListObject | ZsetObject | StreamObject | ModuleObject | OtherObject

  /** The kind of client that waits for keys of a type. */
  function BlockedTypeOf(o: ObjType): (t: Option<BType>) {
    match o
    case ListObject => Some(List)
    case ZsetObject => Some(Zset)
    case ModuleObject => Some(Module)
    case StreamObject => Some(Stream)
    case OtherObject => None
  }

  predicate WaitsForKeys(t: BType) { t.List? || t.Zset? || t.Stream? || t.Module? }

  type Types = map<Client, BType>   // blocked clients and why

  function OfType(types: Types, t: BType): (cs: set<Client>) { set c | c in types && types[c] == t }

  function Regular(types: Types, modules: set<Client>): (cs: set<Client>) { set c | c in types && c !in modules }

  /** The counters are the numbers of clients blocked, by type and in all but modules. */
  ghost predicate Counted(types: Types, modules: set<Client>, byType: map<BType, int>, total: int) {
    && (forall t: BType :: t in byType && byType[t] == |OfType(types, t)|)
    && total == |Regular(types, modules)|
  }

  lemma OfTypeAdds(types: Types, c: Client, t: BType, u: BType)
    requires c !in types
    ensures c !in OfType(types, u)
    ensures OfType(types[c := t], u) == if u == t then OfType(types, u) + {c} else OfType(types, u)
  {
  }

  lemma OfTypeNext(types: Types, c: Client, t: BType, u: BType)
    requires c !in types
    ensures |OfType(types[c := t], u)| == |OfType(types, u)| + if u == t then 1 else 0
  {
    hide OfType;
    OfTypeAdds(types, c, t, u);
  }

  lemma AllTypes(t: BType)
    ensures t in {List, Zset, Stream, Module, Wait, WaitAof, Postpone, PostponeTrim, Shutdown, LazyFree}
  {
  }

  lemma CountedNone(modules: set<Client>, byType: map<BType, int>)
    requires forall t: BType :: t in byType && byType[t] == 0
    ensures Counted(map[], modules, byType, 0)
  {
    forall t: BType ensures OfType(map[], t) == {} {}
    assert Regular(map[], modules) == {};
  }

  lemma RegularNext(types: Types, modules: set<Client>, c: Client, t: BType)
    requires c !in types
    ensures |Regular(types[c := t], modules)| == |Regular(types, modules)| + if c in modules then 0 else 1
  {
    if c in modules {
      assert Regular(types[c := t], modules) == Regular(types, modules);
    } else {
      assert Regular(types[c := t], modules) == Regular(types, modules) + {c};
    }
  }

  lemma CountBlock(types: Types, modules: set<Client>, byType: map<BType, int>, total: int, c: Client, t: BType)
    requires Counted(types, modules, byType, total) && c !in types
    ensures Counted(types[c := t], modules, byType[t := byType[t] + 1], if c in modules then total else total + 1)
  {
    hide OfType;
    hide Regular;
    forall u: BType ensures |OfType(types[c := t], u)| == |OfType(types, u)| + if u == t then 1 else 0 {
      OfTypeNext(types, c, t, u);
    }
    RegularNext(types, modules, c, t);
  }

  lemma CountUnblock(types: Types, modules: set<Client>, byType: map<BType, int>, total: int, c: Client)
    requires Counted(types, modules, byType, total) && c in types
    ensures Counted(types - {c}, modules, byType[types[c] := byType[types[c]] - 1], if c in modules then total else total - 1)
  {
    hide OfType;
    hide Regular;
    var now, t := types - {c}, types[c];
    assert now[c := t] == types;
    forall u: BType ensures |OfType(types, u)| == |OfType(now, u)| + if u == t then 1 else 0 {
      OfTypeNext(now, c, t, u);
    }
    RegularNext(now, modules, c, t);
  }

  /** With no client counted for a type, no client is blocked for it. */
  lemma ZeroMeansNone(types: Types, modules: set<Client>, byType: map<BType, int>, total: int, t: BType, c: Client)
    requires Counted(types, modules, byType, total) && byType[t] == 0 && c in types
    ensures types[c] != t
  {
    assert OfType(types, t) == {};
    assert types[c] == t <==> c in OfType(types, t);
  }

  /** A client with keys is blocked, and for a type that waits for keys. */
  ghost predicate KeysTyped(ck: ClientKeys, types: Types) {
    forall c :: KeysOf(ck, c) != {} ==> c in types && WaitsForKeys(types[c])
  }

  /** In the table iff queued, and queued once. */
  ghost predicate Queued<T(!new)>(table: set<T>, queue: seq<T>) {
    Distinct(queue) && forall x :: x in table <==> x in queue
  }

  /** A key is marked as ready iff it is queued, in the round or after it, and then once. */
  ghost predicate Ready(table: set<Key>, round: seq<Key>, list: seq<Key>, handling: bool) {
    Queued(table, round + list) && (!handling ==> round == [])
  }

  class Server {
    const modules: set<Client>
    var clientKeys: ClientKeys
    var types: Types
    var nokey: set<Client>               // clients with unblock_on_nokey
    var blockingKeys: Waiting
    var onNokey: Counts
    var blockedClients: int
    var byType: map<BType, int>
    var readyTable: set<Key>             // db->ready_keys
    var readyList: seq<Key>              // server.ready_keys
    var round: seq<Key>                  // the list being run, without the key at work
    var handling: bool
    var unblocked: seq<Client>
    var flagged: set<Client>             // CLIENT_UNBLOCKED

    ghost predicate Valid()
      reads this
    {
      && Index(clientKeys, blockingKeys, nokey, onNokey)
      && Counted(types, modules, byType, blockedClients)
      && KeysTyped(clientKeys, types)
      && nokey <= types.Keys
      && Ready(readyTable, round, readyList, handling)
      && Queued(flagged, unblocked)
    }

    constructor (modules: set<Client>)
      ensures Valid() && types == map[] && clientKeys == map[] && readyTable == {} && unblocked == []
    {
      this.modules := modules;
      clientKeys, types, nokey, blockingKeys, onNokey := map[], map[], {}, map[], map[];
      blockedClients := 0;
      byType := map[List := 0, Zset := 0, Stream := 0, Module := 0, Wait := 0,
                    WaitAof := 0, Postpone := 0, PostponeTrim := 0, Shutdown := 0, LazyFree := 0];
      readyTable, readyList, round, handling := {}, [], [], false;
      unblocked, flagged := [], {};
      new;
      forall t: BType ensures t in byType && byType[t] == 0 { AllTypes(t); }
      CountedNone(modules, byType);
    }

    /** A client that is not blocked becomes blocked. */
    method BlockClient(c: Client, t: BType)
      requires Counted(types, modules, byType, blockedClients) && c !in types
      modifies this`types, this`blockedClients, this`byType
      ensures Counted(types, modules, byType, blockedClients) && types == old(types)[c := t]
      ensures old(Valid()) ==> Valid()
    {
      hide Ready;
      hide Index;
      hide Queued;
      CountBlock(types, modules, byType, blockedClients, c, t);
      types := types[c := t];
      if c !in modules { blockedClients := blockedClients + 1; }
      byType := byType[t := byType[t] + 1];
      hide Counted;
    }

    /** Blocks a client on keys: each key gains it once, at the end of its list, and nothing else
        changes in the lists. */
    method BlockForKeys(c: Client, t: BType, keys: seq<Key>, asked: bool)
      requires Valid() && c !in types && WaitsForKeys(t)
      modifies this`clientKeys, this`blockingKeys, this`onNokey, this`nokey, this`types, this`blockedClients, this`byType
      ensures Valid() && types == old(types)[c := t] && nokey == (if asked then old(nokey) + {c} else old(nokey) - {c})
      ensures KeysOf(clientKeys, c) == SetOf(keys) && Joined(old(blockingKeys), blockingKeys, c, SetOf(keys))
    {
      hide Ready;
      hide Index;
      hide Queued;
      hide Counted;
      hide Joined;
      ghost var want := if asked then nokey + {c} else nokey - {c};
      ghost var w0, ck0 := blockingKeys, clientKeys;
      NoKeysYet(clientKeys, types, c);
      hide KeysTyped;
      hide OthersSame;
      SameOthers(clientKeys, c);
      NokeyOfIdle(clientKeys, blockingKeys, nokey, onNokey, c, asked);
      JoinedNone(w0, c);
      for j := 0 to |keys|
        invariant Index(clientKeys, blockingKeys, want, onNokey)
        invariant KeysOf(clientKeys, c) == SetOf(keys[..j]) && Joined(w0, blockingKeys, c, SetOf(keys[..j]))
        invariant OthersSame(ck0, clientKeys, c)
        invariant types == old(types) && nokey == old(nokey) && Counted(types, modules, byType, blockedClients)
      {
        assert keys[..j + 1] == keys[..j] + [keys[j]];
        ghost var ck := clientKeys;
        AddKey(c, keys[j], asked, want, w0);
        OthersTrans(ck0, ck, clientKeys, c);
      }
      assert keys[..|keys|] == keys;
      NowTyped(ck0, clientKeys, types, c, t);
      nokey := if asked then nokey + {c} else nokey - {c};
      BlockClient(c, t);
    }

    /** One key: ignored when the client already has it. */
    method AddKey(c: Client, k: Key, asked: bool, ghost want: set<Client>, ghost w0: Waiting)
      requires Index(clientKeys, blockingKeys, want, onNokey) && (c in want <==> asked)
      requires Joined(w0, blockingKeys, c, KeysOf(clientKeys, c))
      modifies this`clientKeys, this`blockingKeys, this`onNokey
      ensures Index(clientKeys, blockingKeys, want, onNokey)
      ensures KeysOf(clientKeys, c) == old(KeysOf(clientKeys, c)) + {k} && OthersSame(old(clientKeys), clientKeys, c)
      ensures Joined(w0, blockingKeys, c, KeysOf(clientKeys, c))
    {
      hide Index;
      hide Joined;
      if k in KeysOf(clientKeys, c) {
        assert KeysOf(clientKeys, c) + {k} == KeysOf(clientKeys, c);
        return;
      }
      AddKeeps(clientKeys, blockingKeys, want, onNokey, c, k);
      JoinedNext(w0, blockingKeys, c, KeysOf(clientKeys, c), k);
      clientKeys := clientKeys[c := KeysOf(clientKeys, c) + {k}];
      if k !in blockingKeys {
        blockingKeys := blockingKeys[k := []];
      }
      blockingKeys := blockingKeys[k := blockingKeys[k] + [c]];
      assert blockingKeys == AddWaiter(old(blockingKeys), k, c);
      if asked {
        if k in onNokey { onNokey := onNokey[k := onNokey[k] + 1]; } else { onNokey := onNokey[k := 1]; }
      }
    }

    /** Takes a client off the list of one of its keys; its own entry goes only on request. */
    method ReleaseBlockedEntry(c: Client, k: Key, removeKey: bool)
      requires k in blockingKeys && (c in nokey ==> k in onNokey)
      modifies this`clientKeys, this`blockingKeys, this`onNokey
      ensures blockingKeys == RemoveWaiter(old(blockingKeys), k, c)
      ensures onNokey == RemoveNokey(old(blockingKeys), old(onNokey), k, c, c in nokey)
      ensures clientKeys == if removeKey then old(clientKeys)[c := old(KeysOf(clientKeys, c)) - {k}] else old(clientKeys)
    {
      hide Without;
      var l := Without(blockingKeys[k], c);
      if l == [] {
        blockingKeys := blockingKeys - {k};
        onNokey := onNokey - {k};
      } else {
        blockingKeys := blockingKeys[k := l];
        if c in nokey {
          if onNokey[k] <= 1 { onNokey := onNokey - {k}; } else { onNokey := onNokey[k := onNokey[k] - 1]; }
        }
      }
      if removeKey { clientKeys := clientKeys[c := KeysOf(clientKeys, c) - {k}]; }
    }

    /** Takes a client off all the lists it is in. */
    method UnblockClientWaitingData(c: Client)
      requires Index(clientKeys, blockingKeys, nokey, onNokey)
      modifies this`clientKeys, this`blockingKeys, this`onNokey
      ensures Index(clientKeys, blockingKeys, nokey, onNokey) && KeysOf(clientKeys, c) == {}
      ensures OthersSame(old(clientKeys), clientKeys, c)
      ensures Left(old(blockingKeys), blockingKeys, c)
    {
      hide Index;
      hide Without;
      ghost var w0 := blockingKeys;
      var rest := KeysOf(clientKeys, c);
      ghost var virtual: ClientKeys := clientKeys[c := rest];
      assert forall d :: KeysOf(virtual, d) == KeysOf(clientKeys, d);
      SameTables(clientKeys, virtual, blockingKeys, nokey, onNokey);
      NotWaitingUnchanged(virtual, blockingKeys, nokey, onNokey, c);
      while rest != {}
        invariant KeysOf(virtual, c) == rest && clientKeys == old(clientKeys)
        invariant Index(virtual, blockingKeys, nokey, onNokey)
        invariant OthersSame(old(clientKeys), virtual, c)
        invariant forall k :: Waiters(blockingKeys, k) == if k in rest then Waiters(w0, k) else Without(Waiters(w0, k), c)
        decreases rest
      {
        var k :| k in rest;
        RemoveKeeps(virtual, blockingKeys, nokey, onNokey, c, k);
        ReleaseBlockedEntry(c, k, false);
        rest := rest - {k};
        virtual := virtual[c := rest];
      }
      clientKeys := clientKeys - {c};
      SameTables(virtual, clientKeys, blockingKeys, nokey, onNokey);
    }

    /** Schedules a client once. */
    method QueueClientForReprocessing(c: Client)
      requires Queued(flagged, unblocked)
      modifies this`unblocked, this`flagged
      ensures Queued(flagged, unblocked) && flagged == old(flagged) + {c}
      ensures unblocked == old(unblocked) + if c in old(flagged) then [] else [c]
    {
      if c !in flagged {
        flagged := flagged + {c};
        unblocked := unblocked + [c];
      }
    }

    /** The type and the counters of a client that is no longer blocked. */
    method Uncount(c: Client)
      requires Counted(types, modules, byType, blockedClients) && c in types
      modifies this`types, this`blockedClients, this`byType
      ensures Counted(types, modules, byType, blockedClients) && types == old(types) - {c}
    {
      CountUnblock(types, modules, byType, blockedClients, c);
      if c !in modules { blockedClients := blockedClients - 1; }
      byType := byType[types[c] := byType[types[c]] - 1];
      types := types - {c};
    }

    /** Unblocks a blocked client: it leaves all lists, its counters go down, and it is queued on
        request. Every other client keeps its keys and its place. */
    method UnblockClient(c: Client, queue: bool)
      requires Valid() && c in types
      modifies this`clientKeys, this`blockingKeys, this`onNokey, this`nokey, this`types, this`blockedClients, this`byType
      modifies this`unblocked, this`flagged
      ensures Valid() && types == old(types) - {c} && nokey == old(nokey) - {c}
      ensures KeysOf(clientKeys, c) == {} && OthersSame(old(clientKeys), clientKeys, c)
      ensures Left(old(blockingKeys), blockingKeys, c)
      ensures unblocked == old(unblocked) + if queue && c !in old(flagged) then [c] else []
    {
      hide Ready;
      hide Index;
      hide Left;
      hide Counted;
      hide Queued;
      hide KeysTyped;
      IdleUnlessTyped(clientKeys, types, c);
      if WaitsForKeys(types[c]) {
        UnblockClientWaitingData(c);
      } else {
        NotWaitingUnchanged(clientKeys, blockingKeys, nokey, onNokey, c);
      }
      StillTyped(old(clientKeys), clientKeys, types, c);
      Uncount(c);
      NokeyOfIdle(clientKeys, blockingKeys, nokey, onNokey, c, false);
      nokey := nokey - {c};
      if queue { QueueClientForReprocessing(c); }
    }

    /** Signals that a key of some type was written or deleted. It is queued at most once, and it
        is queued whenever a client that could be served waits for it. */
    method SignalKeyAsReady(k: Key, o: ObjType, deleted: bool)
      requires Valid()
      modifies this`readyTable, this`readyList
      ensures Valid() && readyTable <= old(readyTable) + {k} && old(readyTable) <= readyTable
      ensures readyList == old(readyList) + if k in readyTable && k !in old(readyTable) then [k] else []
      ensures forall c :: c in Waiters(blockingKeys, k) && Interested(types, nokey, c, o, deleted) ==> k in readyTable
      ensures k in readyTable && k !in old(readyTable) ==> k in blockingKeys
    {
      hide Queued;
      hide Index;
      hide Counted;
      hide Interested;
      hide KeysTyped;
      var t := BlockedTypeOf(o);
      NoType(types, nokey, o, deleted);
      if t.None? { return; }
      EveryType(types, modules, byType, blockedClients);
      NobodyInterested(types, modules, byType, blockedClients, nokey, o, deleted);
      if byType[t.value] == 0 && byType[Module] == 0 { return; }
      AskedAreCounted(clientKeys, blockingKeys, nokey, onNokey, types, o, k);
      if deleted {
        if k !in onNokey { return; }
      } else {
        if k !in blockingKeys { return; }
      }
      if k in readyTable { return; }
      QueuedNext(readyTable, round + readyList, k);
      assert round + readyList + [k] == round + (readyList + [k]);
      readyTable := readyTable + {k};
      readyList := readyList + [k];
    }

    /** Handling is not re-entered from the commands it runs. */
    method StartHandling() returns (started: bool)
      requires Valid()
      modifies this`handling
      ensures Valid() && handling && started == !old(handling)
    {
      hide Index;
      hide Counted;
      hide Queued;
      if handling { return false; }
      handling := true;
      return true;
    }

    /** Sets the queued keys aside, so that new signals start a new list. */
    method TakeRound()
      requires Valid() && handling && round == []
      modifies this`round, this`readyList
      ensures Valid() && round == old(readyList) && readyList == []
    {
      hide Index;
      hide Counted;
      hide Queued;
      assert round + readyList == readyList + [];
      round, readyList := readyList, [];
    }

    /** Takes the first key of the round. It leaves the table first, so that it can be signalled
        again while it is being handled. */
    method TakeKey() returns (k: Key)
      requires Valid() && handling && round != []
      modifies this`round, this`readyTable
      ensures Valid() && [k] + round == old(round)
      ensures k in old(readyTable) && readyTable == old(readyTable) - {k}
    {
      hide Index;
      hide Counted;
      k := round[0];
      QueuedFirst(readyTable, round + readyList);
      assert (round + readyList)[1..] == round[1..] + readyList;
      readyTable := readyTable - {k};
      round := round[1..];
    }

    /** Ends when both lists are empty; then no key is marked as ready. */
    method FinishHandling()
      requires Valid() && handling && round == [] && readyList == []
      modifies this`handling
      ensures Valid() && !handling && readyTable == {}
    {
      hide Index;
      hide Counted;
      handling := false;
    }

    /** The client leaves the list of the key that is ready, then all its other lists. */
    method LeaveForKey(c: Client, k: Key)
      requires Valid() && c in Waiters(blockingKeys, k) && types[c] != Module
      modifies this`clientKeys, this`blockingKeys, this`onNokey, this`nokey, this`types, this`blockedClients, this`byType
      modifies this`unblocked, this`flagged
      ensures Valid() && types == old(types) - {c} && nokey == old(nokey) - {c} && unblocked == old(unblocked)
      ensures KeysOf(clientKeys, c) == {} && OthersSame(old(clientKeys), clientKeys, c)
      ensures Left(old(blockingKeys), blockingKeys, c)
    {
      assert k in KeysOf(clientKeys, c);
      assert Lists(blockingKeys);
      hide Ready;
      hide Index;
      hide Left;
      hide Counted;
      hide Queued;
      hide Without;
      ghost var w0 := blockingKeys;
      RemoveKeeps(clientKeys, blockingKeys, nokey, onNokey, c, k);
      FewerKeys(clientKeys, types, c, k);
      hide KeysTyped;
      hide OthersSame;
      ReleaseBlockedEntry(c, k, true);
      ghost var w1, ck1 := blockingKeys, clientKeys;
      UnblockClient(c, false);
      OthersTrans(old(clientKeys), ck1, clientKeys, c);
      LeftTwice(w0, w1, blockingKeys, c, k);
    }

    /** One operation of a command that runs while keys are handled; those that do not apply do
        nothing. */
    method Perform(a: Act)
      requires Valid()
      modifies this
      ensures Valid() && ActStep(a, old(Snapshot()), Snapshot())
      ensures handling == old(handling) && round == old(round)
    {
      hide Valid;
      match a
      case Block(c, t, keys, asked) =>
        if c !in types && WaitsForKeys(t) { BlockKeys(c, t, keys, asked); }
      case Unblock(c, queue) =>
        if c in types { UnblockClient(c, queue); }
      case Signal(k, o, deleted) =>
        SignalKeyAsReady(k, o, deleted);
    }

    method BlockKeys(c: Client, t: BType, keys: seq<Key>, asked: bool)
      requires Valid() && c !in types && WaitsForKeys(t)
      modifies this
      ensures Valid() && ActStep(Block(c, t, keys, asked), old(Snapshot()), Snapshot())
      ensures handling == old(handling) && round == old(round)
    {
      BlockForKeys(c, t, keys, asked);
    }

    ghost function Snapshot(): (s: Snap)
      reads this
    {
      Snap(blockingKeys, types, nokey)
    }

    method PerformAll(script: seq<Act>)
      requires Valid()
      modifies this
      ensures Valid() && Script(script, old(Snapshot()), Snapshot())
      ensures handling == old(handling) && round == old(round)
    {
      hide Valid;
      hide ActStep;
      for i := 0 to |script|
        invariant Valid() && Script(script[..i], old(Snapshot()), Snapshot())
        invariant handling == old(handling) && round == old(round)
      {
        ghost var m := Snapshot();
        Perform(script[i]);
        ScriptNext(script, i, old(Snapshot()), m, Snapshot());
      }
      assert script[..|script|] == script;
    }

    /** Unblocks a client because one of its keys is ready, and runs its command again: `script` is
        whatever that does to blocked clients and ready keys. A regular client that is not
        blocked again is queued. */
    method UnblockClientOnKey(c: Client, k: Key, script: seq<Act>)
      requires Valid() && c in Waiters(blockingKeys, k) && c in types && types[c] != Module
      modifies this
      ensures Valid() && Reexecuted(c, script, old(Snapshot()), Snapshot())
      ensures c !in types && c !in modules ==> c in flagged
      ensures handling == old(handling) && round == old(round)
    {
      hide Valid;
      hide Script;
      LeaveForKey(c, k);
      ghost var m := Snapshot();
      PerformAll(script);
      if c !in types && c !in modules { Requeue(c); }
      assert Script(script, m, Snapshot());
    }

    method Requeue(c: Client)
      requires Valid()
      modifies this`unblocked, this`flagged
      ensures Valid() && c in flagged
    {
      QueueClientForReprocessing(c);
    }

    /** Runs down the list of a ready key from its first client. Each client visited is on the list
        at that moment; the key is looked up again for it, and the client is unblocked and its
        command run iff it waits for the type the key has then, or asked for any change. No more
        clients are visited than were on the list at the start, each after the one before it in
        the list as it was. */
    method HandleClientsBlockedOnKey(k: Key, turn: nat -> Turn) returns (visits: seq<Visit>, ghost states: seq<Snap>)
      requires Valid()
      modifies this
      ensures Valid() && handling == old(handling) && round == old(round)
      ensures |visits| <= |old(Waiters(blockingKeys, k))| && |states| == |visits| + 1
      ensures states[0] == old(Snapshot()) && states[|visits|] == Snapshot()
      ensures forall i :: 0 <= i < |visits| ==> Visited(visits[i], k, turn(i), states[i], states[i + 1])
      ensures forall i :: 0 < i < |visits| ==> RightAfter(Waiters(states[i - 1].waiting, k), visits[i - 1].client, visits[i].client)
      ensures old(Waiters(blockingKeys, k)) != [] ==> visits != [] && visits[0].client == old(Waiters(blockingKeys, k))[0]
    {
      hide Valid;
      hide Visited;
      hide RightAfter;
      var clients := Waiters(blockingKeys, k);
      visits, states := [], [Snapshot()];
      var next := if clients == [] then None else Some(clients[0]);
      while next.Some? && |visits| < |clients|
        invariant Valid() && handling == old(handling) && round == old(round)
        invariant |visits| <= |clients| && |states| == |visits| + 1 && states[|visits|] == Snapshot() && states[0] == old(Snapshot())
        invariant next.Some? ==> next.value in Waiters(blockingKeys, k)
        invariant visits == [] && clients != [] ==> next == Some(clients[0])
        invariant visits != [] ==> visits[0].client == clients[0]
        invariant visits != [] && next.Some? ==>
                    RightAfter(Waiters(states[|visits| - 1].waiting, k), visits[|visits| - 1].client, next.value)
        invariant forall i :: 0 <= i < |visits| ==> Visited(visits[i], k, turn(i), states[i], states[i + 1])
        invariant forall i :: 0 < i < |visits| ==>
                    RightAfter(Waiters(states[i - 1].waiting, k), visits[i - 1].client, visits[i].client)
        decreases |clients| - |visits|
      {
        var c, now := next.value, turn(|visits|);
        next := Follower(Waiters(blockingKeys, k), c);
        FollowerExact(Waiters(blockingKeys, k), c);
        var v := VisitOne(k, c, now);
        visits := visits + [v];
        states := states + [Snapshot()];
        // A follower that left the list in the meantime ends the run: its node is gone.
        if next.Some? && next.value !in Waiters(blockingKeys, k) { next := None; }
      }
    }

    method VisitOne(k: Key, c: Client, now: Turn) returns (v: Visit)
      requires Valid() && c in Waiters(blockingKeys, k)
      modifies this
      ensures Valid() && v.client == c && Visited(v, k, now, old(Snapshot()), Snapshot())
      ensures handling == old(handling) && round == old(round)
    {
      WaiterIsBlocked(c, k);
      hide Valid;
      hide Script;
      if Serves(types, nokey, c, now.o) {
        UnblockClientOnKey(c, k, now.script);
        return Visit(c, Rerun);
      }
      if CallsModule(types, nokey, c, now.o) {
        PerformAll(now.script);
        return Visit(c, ModuleCalled);
      }
      return Visit(c, Skipped);
    }

    lemma WaiterIsBlocked(c: Client, k: Key)
      requires Valid() && c in Waiters(blockingKeys, k)
      ensures c in types
    {
      ListTyped(clientKeys, blockingKeys, nokey, onNokey, types, k);
    }
  }

  /** What commands do to blocked clients and ready keys. */
  datatype Act =
    | Block(c: Client, t: BType, keys: seq<Key>, asked: bool)
    | Unblock(c: Client, queue: bool)
    | Signal(k: Key, o: ObjType, deleted: bool)

  /** The lists, types and requests at one moment. */
  datatype Snap = Snap(waiting: Waiting, types: Types, nokey: set<Client>)

  ghost predicate ActStep(a: Act, s: Snap, r: Snap) {
    match a
    case Block(c, t, keys, asked) =>
      if c in s.types || !WaitsForKeys(t) then r == s
      else
        && r.types == s.types[c := t] && r.nokey == (if asked then s.nokey + {c} else s.nokey - {c})
        && Joined(s.waiting, r.waiting, c, SetOf(keys))
    case Unblock(c, queue) =>
      if c !in s.types then r == s
      else r.types == s.types - {c} && r.nokey == s.nokey - {c} && Left(s.waiting, r.waiting, c)
    case Signal(k, o, deleted) => r == s
  }

  /** A sequence of operations leads from one moment to another. */
  ghost predicate Script(script: seq<Act>, s: Snap, r: Snap)
    decreases |script|
  {
    if script == [] then r == s
    else exists m :: Script(Init(script), s, m) && ActStep(Last(script), m, r)
  }

  function Init(script: seq<Act>): (r: seq<Act>)
    requires script != []
    ensures |r| < |script|
  {
    script[..|script| - 1]
  }

  function Last(script: seq<Act>): (a: Act)
    requires script != []
  {
    script[|script| - 1]
  }

  lemma ScriptNext(script: seq<Act>, i: nat, s: Snap, m: Snap, r: Snap)
    requires i < |script| && Script(script[..i], s, m) && ActStep(script[i], m, r)
    ensures Script(script[..i + 1], s, r)
  {
    hide ActStep;
    assert Init(script[..i + 1]) == script[..i] && Last(script[..i + 1]) == script[i];
  }

  /** The client left all its lists, and then its command ran. */
  ghost predicate Reexecuted(c: Client, script: seq<Act>, s: Snap, r: Snap) {
    c in s.types && exists m :: ActStep(Unblock(c, false), s, m) && Script(script, m, r)
  }

  /** What is found at a client's turn: what the key holds, and what the command or the module then
      does. */
  datatype Turn = Turn(o: Option<ObjType>, script: seq<Act>)

  datatype Handling = Skipped | Rerun | ModuleCalled

  datatype Visit = Visit(client: Client, handling: Handling)

  /** A visit on the list of a key, decided by what is found at that turn. */
  ghost predicate Visited(v: Visit, k: Key, now: Turn, s: Snap, r: Snap) {
    && v.client in Waiters(s.waiting, k)
    && (v.handling.Rerun? <==> Serves(s.types, s.nokey, v.client, now.o))
    && (v.handling.ModuleCalled? <==> CallsModule(s.types, s.nokey, v.client, now.o))
    && (v.handling.Skipped? ==> r == s)
    && (v.handling.Rerun? ==> Reexecuted(v.client, now.script, s, r))
    && (v.handling.ModuleCalled? ==> Script(now.script, s, r))
  }

  /** The client after another in a list. */
  function Follower(s: seq<Client>, c: Client): (r: Option<Client>)
    ensures r.Some? ==> r.value in s
  {
    if |s| < 2 then None else if s[0] == c then Some(s[1]) else Follower(s[1..], c)
  }

  /** Client `d` stands right after client `c` in a list. */
  ghost predicate RightAfter(s: seq<Client>, c: Client, d: Client) {
    exists i :: 1 <= i < |s| && s[i - 1] == c && s[i] == d
  }

  lemma {:induction false} FollowerExact(s: seq<Client>, c: Client)
    ensures var r := Follower(s, c);
            (r.Some? ==> RightAfter(s, c, r.value)) && (r.None? ==> forall i :: 0 <= i < |s| - 1 ==> s[i] != c)
  {
    if |s| >= 2 {
      if s[0] == c {
        assert s[1 - 1] == c && s[1] == Follower(s, c).value;
      } else {
        FollowerExact(s[1..], c);
        if Follower(s, c).Some? {
          var i :| 1 <= i < |s[1..]| && s[1..][i - 1] == c && s[1..][i] == Follower(s, c).value;
          assert s[i + 1 - 1] == c && s[i + 1] == Follower(s, c).value;
        } else {
          assert forall i :: 1 <= i < |s| - 1 ==> s[i] == s[1..][i - 1];
        }
      }
    }
  }

  /** A command that blocks, unblocks and signals nobody when it runs again: its client is gone from
      all lists, and every other client is where it was. */
  lemma PlainRerun(c: Client, s: Snap, r: Snap)
    requires Reexecuted(c, [], s, r)
    ensures c in s.types && r.types == s.types - {c} && r.nokey == s.nokey - {c} && Left(s.waiting, r.waiting, c)
  {
  }

  /** One that blocks its client again: it is now at the end of the lists of its keys. */
  lemma BlockingRerun(c: Client, t: BType, keys: seq<Key>, asked: bool, s: Snap, r: Snap)
    requires WaitsForKeys(t) && Reexecuted(c, [Block(c, t, keys, asked)], s, r)
    ensures r.types == (s.types - {c})[c := t]
    ensures forall k :: Waiters(r.waiting, k) == Without(Waiters(s.waiting, k), c) + if k in keys then [c] else []
  {
    var a := Block(c, t, keys, asked);
    var m :| ActStep(Unblock(c, false), s, m) && Script([a], m, r);
    var n :| Script(Init([a]), m, n) && ActStep(Last([a]), n, r);
    assert Init([a]) == [] && n == m;
    hide Without;
  }

  /** The module of a blocked client is asked whether it can serve it. */
  predicate CallsModule(types: Types, nokey: set<Client>, c: Client, o: Option<ObjType>) {
    c in types && types[c] == Module && (o.Some? || c in nokey)
  }

  /** A client that is unblocked when a key it waits for is ready and holds `o`. */
  predicate Serves(types: Types, nokey: set<Client>, c: Client, o: Option<ObjType>) {
    && c in types && types[c] != Module
    && ((o.Some? && BlockedTypeOf(o.value) == Some(types[c])) || c in nokey)
  }

  /** The kind of object that serves a kind of waiting client. */
  predicate Matches(t: BType, o: ObjType) {
    (t.List? && o.ListObject?) || (t.Zset? && o.ZsetObject?) || (t.Stream? && o.StreamObject?)
  }

  /** Clients are served by an object of exactly their own kind, or by any change if they asked for
      that; modules are called for any object. */
  lemma ServesExact(types: Types, nokey: set<Client>, c: Client, o: Option<ObjType>)
    requires c in types && types[c] in {List, Zset, Stream, Module}
    ensures Serves(types, nokey, c, o) <==> types[c] != Module && (c in nokey || (o.Some? && Matches(types[c], o.value)))
    ensures CallsModule(types, nokey, c, o) <==> types[c] == Module && (c in nokey || o.Some?)
  {
  }

  /** And a write of such an object, or of any object for a module, is never missed by the signal. */
  lemma InterestedExact(types: Types, nokey: set<Client>, c: Client, o: ObjType, deleted: bool)
    requires c in types && types[c] in {List, Zset, Stream, Module}
    ensures Interested(types, nokey, c, o, deleted) <==>
            (Matches(types[c], o) || (types[c] == Module && !o.OtherObject?)) && (deleted ==> c in nokey)
  {
  }

  lemma QueuedFirst<T(!new)>(table: set<T>, queue: seq<T>)
    requires Queued(table, queue) && queue != []
    ensures queue[0] in table && Queued(table - {queue[0]}, queue[1..])
  {
    assert queue == [queue[0]] + queue[1..];
  }

  /** The clients of a list are blocked, and each is there once. */
  lemma ListTyped(ck: ClientKeys, w: Waiting, nokey: set<Client>, counts: Counts, types: Types, k: Key)
    requires Index(ck, w, nokey, counts) && KeysTyped(ck, types)
    ensures Distinct(Waiters(w, k)) && forall c :: c in Waiters(w, k) ==> c in types
  {
    forall c | c in Waiters(w, k) ensures c in types { assert k in KeysOf(ck, c); }
  }

  lemma LeftTwice(w0: Waiting, w1: Waiting, w2: Waiting, c: Client, k: Key)
    requires w1 == RemoveWaiter(w0, k, c) && Left(w1, w2, c) && Lists(w0)
    ensures Left(w0, w2, c)
  {
    hide Without;
    WithoutEmpty(c);
    forall j ensures Waiters(w2, j) == Without(Waiters(w0, j), c) {
      if j == k {
        assert Waiters(w1, k) == Without(Waiters(w0, k), c);
        assert Distinct(Waiters(w0, k));
        WithoutKeeps(Waiters(w0, k), c);
        WithoutAbsent(Waiters(w1, k), c);
      } else {
        assert Waiters(w1, j) == Waiters(w0, j);
      }
    }
  }

  lemma WithoutEmpty(c: Client)
    ensures Without([], c) == []
  {
  }

  /** A client that could be served by an event: it waits for keys of that type or belongs to a
      module, and for a deletion it asked to be told. */
  ghost predicate Interested(types: Types, nokey: set<Client>, c: Client, o: ObjType, deleted: bool) {
    && c in types && BlockedTypeOf(o).Some?
    && (types[c] == BlockedTypeOf(o).value || types[c] == Module) && (deleted ==> c in nokey)
  }

  lemma NoType(types: Types, nokey: set<Client>, o: ObjType, deleted: bool)
    ensures BlockedTypeOf(o).None? ==> forall c :: !Interested(types, nokey, c, o, deleted)
  {
  }

  lemma EveryType(types: Types, modules: set<Client>, byType: map<BType, int>, total: int)
    requires Counted(types, modules, byType, total)
    ensures forall t: BType :: t in byType
  {
  }

  /** The quick return on zero counters skips nobody. */
  lemma NobodyInterested(types: Types, modules: set<Client>, byType: map<BType, int>, total: int, nokey: set<Client>, o: ObjType, deleted: bool)
    requires Counted(types, modules, byType, total) && BlockedTypeOf(o).Some?
    requires BlockedTypeOf(o).value in byType && Module in byType
    ensures byType[BlockedTypeOf(o).value] == 0 && byType[Module] == 0 ==> forall c :: !Interested(types, nokey, c, o, deleted)
  {
    hide Counted;
    var t := BlockedTypeOf(o).value;
    if byType[t] == 0 && byType[Module] == 0 {
      forall c ensures !Interested(types, nokey, c, o, deleted) {
        if c in types {
          ZeroMeansNone(types, modules, byType, total, t, c);
          ZeroMeansNone(types, modules, byType, total, Module, c);
        }
      }
    }
  }

  /** Every list without the client, the others in their order. */
  ghost predicate Left(was: Waiting, now: Waiting, c: Client) {
    forall k :: Waiters(now, k) == Without(Waiters(was, k), c)
  }

  lemma IdleUnlessTyped(ck: ClientKeys, types: Types, c: Client)
    requires KeysTyped(ck, types) && c in types
    ensures WaitsForKeys(types[c]) || KeysOf(ck, c) == {}
  {
  }

  lemma NoKeysYet(ck: ClientKeys, types: Types, c: Client)
    requires KeysTyped(ck, types) && c !in types
    ensures KeysOf(ck, c) == {}
  {
  }

  lemma SameOthers(ck: ClientKeys, c: Client)
    ensures OthersSame(ck, ck, c)
  {
  }

  lemma NowTyped(was: ClientKeys, now: ClientKeys, types: Types, c: Client, t: BType)
    requires KeysTyped(was, types) && OthersSame(was, now, c) && WaitsForKeys(t)
    ensures KeysTyped(now, types[c := t])
  {
    forall d | KeysOf(now, d) != {} ensures d in types[c := t] && WaitsForKeys(types[c := t][d]) {
      assert d != c ==> KeysOf(was, d) != {};
    }
  }

  lemma FewerKeys(ck: ClientKeys, types: Types, c: Client, k: Key)
    requires KeysTyped(ck, types)
    ensures KeysTyped(ck[c := KeysOf(ck, c) - {k}], types) && OthersSame(ck, ck[c := KeysOf(ck, c) - {k}], c)
  {
    var now := ck[c := KeysOf(ck, c) - {k}];
    forall d | KeysOf(now, d) != {} ensures d in types && WaitsForKeys(types[d]) {
      assert KeysOf(ck, d) != {};
    }
  }

  lemma OthersTrans(a: ClientKeys, b: ClientKeys, d: ClientKeys, c: Client)
    requires OthersSame(a, b, c) && OthersSame(b, d, c)
    ensures OthersSame(a, d, c)
  {
  }

  lemma StillTyped(was: ClientKeys, now: ClientKeys, types: Types, c: Client)
    requires KeysTyped(was, types) && OthersSame(was, now, c) && KeysOf(now, c) == {}
    ensures KeysTyped(now, types - {c})
  {
    forall d | KeysOf(now, d) != {} ensures d in types - {c} && WaitsForKeys(types[d]) {
      assert KeysOf(was, d) != {};
    }
  }

  function SetOf(keys: seq<Key>): (r: set<Key>)
    ensures forall k :: k in r <==> k in keys
  {
    set k | k in keys
  }

  /** Exactly the given keys gained the client, at the end of their lists. */
  ghost predicate Joined(was: Waiting, now: Waiting, c: Client, ks: set<Key>) {
    forall k :: Waiters(now, k) == Waiters(was, k) + if k in ks then [c] else []
  }

  lemma JoinedNone(w: Waiting, c: Client)
    ensures Joined(w, w, c, {})
  {
  }

  lemma JoinedNext(was: Waiting, now: Waiting, c: Client, ks: set<Key>, k: Key)
    requires Joined(was, now, c, ks) && k !in ks
    ensures Joined(was, AddWaiter(now, k, c), c, ks + {k})
  {
    var w := AddWaiter(now, k, c);
    forall j ensures Waiters(w, j) == Waiters(was, j) + if j in ks + {k} then [c] else [] {
      assert Waiters(now, j) == Waiters(was, j) + if j in ks then [c] else [];
    }
  }

  ghost predicate OthersSame(was: ClientKeys, now: ClientKeys, c: Client) {
    forall d :: d != c ==> KeysOf(now, d) == KeysOf(was, d)
  }

  /** Only the sets of keys matter, not how they are stored. */
  lemma SameTables(a: ClientKeys, b: ClientKeys, w: Waiting, nokey: set<Client>, counts: Counts)
    requires Index(a, w, nokey, counts) && forall d :: KeysOf(a, d) == KeysOf(b, d)
    ensures Index(b, w, nokey, counts)
  {
    hide NokeyCounted;
  }

  /** Lists of other keys do not hold the client. */
  lemma NotWaitingUnchanged(ck: ClientKeys, w: Waiting, nokey: set<Client>, counts: Counts, c: Client)
    requires Index(ck, w, nokey, counts)
    ensures forall k :: k !in KeysOf(ck, c) ==> Without(Waiters(w, k), c) == Waiters(w, k)
    ensures KeysOf(ck, c) == {} ==> Left(w, w, c)
  {
    forall k | k !in KeysOf(ck, c) ensures Without(Waiters(w, k), c) == Waiters(w, k) {
      WithoutAbsent(Waiters(w, k), c);
    }
  }

  lemma {:induction false} WithoutAbsent(s: seq<Client>, c: Client)
    requires c !in s
    ensures Without(s, c) == s
  {
    if s != [] {
      WithoutAbsent(s[..|s| - 1], c);
      assert s == s[..|s| - 1] + [s[|s| - 1]];
    }
  }

  lemma QueuedNext<T(!new)>(table: set<T>, queue: seq<T>, x: T)
    requires Queued(table, queue) && x !in table
    ensures Queued(table + {x}, queue + [x])
  {
  }

  /** A client that waits for the key and is interested in its deletion is counted on it; and a
      key with a count has a list. */
  lemma AskedAreCounted(ck: ClientKeys, w: Waiting, nokey: set<Client>, counts: Counts, types: Types, o: ObjType, k: Key)
    requires Index(ck, w, nokey, counts)
    ensures forall c :: c in Waiters(w, k) && Interested(types, nokey, c, o, true) ==> k in counts
    ensures forall c :: c in Waiters(w, k) ==> k in w
    ensures k in counts ==> k in w
  {
    forall c | c in Waiters(w, k) && Interested(types, nokey, c, o, true) ensures k in counts {
      AskedIsCounted(Waiters(w, k), c, nokey);
    }
  }
}
