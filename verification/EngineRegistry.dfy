/** The registry of imported lists. Engines load outside the lock; threads that
    arrive meanwhile wait for the loader; leases keep an engine resident; at most
    one idle engine stays. Each method below is one critical section or one
    semaphore operation, so any sequence of calls is an interleaving of threads. */
module EngineRegistry {
  import opened Common

  datatype Outcome = Pending | Loaded(engine: int) | Failed

  /** One list's entry, with the threads that currently depend on it. */
  class Entry {
    ghost const id: string
    var engine: Option<int>
    var references: int
    var lastUsed: nat
    var loading: bool
    var result: Outcome
    var waiters: nat
    var ready: nat            // the semaphore's value
    ghost var parked: nat     // threads waiting on the semaphore
    ghost var posting: nat    // signals the loader still owes
    ghost var signalled: nat  // threads past the semaphore that have not read the result
    ghost var granted: nat    // threads that own a reference and have not made their lease
    ghost var leases: nat     // live leases

    constructor (id: string, now: nat)
      ensures this.id == id && engine == None && references == 0 && lastUsed == now
      ensures loading && result == Pending && waiters == 0 && ready == 0
      ensures parked == posting == signalled == granted == leases == 0
    {
      this.id := id;
      engine, references, lastUsed, loading, result, waiters, ready := None, 0, now, true, Pending, 0, 0;
      parked, posting, signalled, granted, leases := 0, 0, 0, 0, 0;
    }

    predicate Idle()
      reads this
    {
      references == 0 && engine.Some?
    }

    /** Every reference has an owner, and every waiter has one signal coming. */
    ghost predicate Balanced()
      reads this
    {
      match result
      case Pending => (
        loading && engine == None && references == 0 && ready == 0
        && parked == waiters && posting == signalled == granted == leases == 0)
      case Loaded(e) => (
        !loading && engine == Some(e) && waiters == 0
        && references == leases + granted + parked + signalled
        && parked == ready + posting)
      case Failed => (
        !loading && engine == None && waiters == 0 && references == 0
        && granted == leases == 0
        && parked == ready + posting)
    }
  }

  datatype Ticket = Granted(engine: int) | Wait(entry: Entry) | Load(entry: Entry)

  class OfflineEngineRegistry {
    var entries: map<string, Entry>
    var clock: nat
    ghost var known: set<Entry>  // every entry ever created

    ghost predicate Resident(e: Entry)
      reads this
    {
      e.id in entries && entries[e.id] == e
    }

    /** Whoever is loading or referenced is in the table, whoever failed is not. */
    ghost predicate EntryOk(e: Entry)
      reads this, e
    {
      && e.Balanced()
      && (e.loading || e.references > 0 ==> Resident(e))
      && (e.result.Failed? ==> !Resident(e))
    }

    /** The invariant but for the bound on idle engines. */
    ghost predicate Consistent()
      reads this, known
    {
      && (forall i :: i in entries ==> entries[i] in known && entries[i].id == i)
      && (forall e :: e in known ==> EntryOk(e))
    }

    ghost predicate Valid()
      reads this, known
    {
      && Consistent()
      && (forall i, j :: i in entries && j in entries && entries[i].Idle() && entries[j].Idle() ==> i == j)
    }

    /** Only idle engines have left the table, and none that was used later than an idle one that stays. */
    ghost predicate OnlyIdleGone(before: map<string, Entry>)
      reads this, before.Values
    {
      && (forall i :: i in entries ==> i in before && entries[i] == before[i])
      && (forall i :: i in before && i !in entries ==> before[i].Idle())
      && (forall i, k :: i in before && i !in entries && k in entries && before[k].Idle() ==>
          before[i].lastUsed <= before[k].lastUsed)
    }

    constructor ()
      ensures Valid() && entries == map[] && known == {}
    {
      entries, clock, known := map[], 0, {};
    }

    /** The first critical section of `acquire`: a resident engine is referenced at
        once, a loading one is waited for, and a missing one is to be loaded by the
        caller. There is no fourth case, so the loop around it never repeats. */
    method Acquire(id: string) returns (ticket: Ticket)
      requires Valid()
      modifies this, known
      ensures Valid() && fresh(known - old(known)) && old(known) <= known
      ensures ticket.Load? <==> id !in old(entries)
      ensures ticket.Load? ==> (
        fresh(ticket.entry) && entries == old(entries)[id := ticket.entry]
        && ticket.entry.loading && known == old(known) + {ticket.entry})
      ensures !ticket.Load? ==> entries == old(entries)
      ensures ticket.Granted? ==> (
        entries[id].engine == Some(ticket.engine)
        && entries[id].granted == old(entries[id].granted) + 1 && entries[id].leases == old(entries[id].leases))
      ensures ticket.Wait? ==>
                entries[id] == ticket.entry && ticket.entry.loading
                && ticket.entry.parked == old(entries[id].parked) + 1
    {
      if id in entries {
        var entry := entries[id];
        TableEntries(id);
        if entry.engine.Some? {
          Refer(id, entry);
          ticket := Granted(entry.engine.value);
        } else if entry.loading {
          Enlist(entry);
          ticket := Wait(entry);
        } else {
          assert false;
        }
      } else {
        var entry := Create(id);
        ticket := Load(entry);
      }
    }

    method Refer(id: string, entry: Entry)
      requires Valid() && id in entries && entries[id] == entry && entry.engine.Some?
      modifies this`clock, entry`references, entry`lastUsed, entry`granted
      ensures Valid() && entry.granted == old(entry.granted) + 1
    {
      assert EntryOk(entry);
      entry.references := entry.references + 1;
      entry.lastUsed := clock;
      clock := clock + 1;
      entry.granted := entry.granted + 1;
      assert EntryOk(entry) && !entry.Idle();
    }

    method Enlist(entry: Entry)
      requires Valid() && entry in known && entry.loading
      modifies entry`waiters, entry`parked
      ensures Valid() && entry.parked == old(entry.parked) + 1
    {
      assert EntryOk(entry);
      entry.waiters := entry.waiters + 1;
      entry.parked := entry.parked + 1;
      assert EntryOk(entry);
    }

    method Create(id: string) returns (entry: Entry)
      requires Valid() && id !in entries
      modifies this
      ensures Valid() && fresh(entry) && entry.loading
      ensures entries == old(entries)[id := entry] && known == old(known) + {entry}
    {
      entry := new Entry(id, clock);
      clock := clock + 1;
      entries := entries[id := entry];
      known := known + {entry};
      forall e | e in known ensures EntryOk(e) {
        if e != entry { assert old(EntryOk(e)); }
      }
    }

    /** The loader publishes its result and owes one signal to every waiter, each of
        which already holds its reference. */
    method FinishLoad(id: string, entry: Entry, result: Outcome)
      requires Valid() && entry in known && entry.id == id && entry.loading && result != Pending
      modifies this, entry
      ensures Valid() && known == old(known) && entry.result == result
      ensures entry.parked == entry.posting == old(entry.parked)
      ensures entry.granted == if result.Loaded? then 1 else 0
      ensures result.Loaded? ==> Resident(entry) && OnlyIdleGone(old(entries))
      ensures result == Failed ==>
                entries == if id in old(entries) && old(entries)[id] == entry then old(entries) - {id} else old(entries)
    {
      if result.Loaded? { FinishLoaded(id, entry, result.engine); } else { FinishFailed(id, entry); }
    }

    method FinishLoaded(id: string, entry: Entry, engine: int)
      requires Valid() && entry in known && entry.id == id && entry.loading
      modifies this`entries, this`clock, entry
      ensures Valid() && entry.result == Loaded(engine)
      ensures entry.parked == entry.posting == old(entry.parked) && entry.granted == 1
      ensures Resident(entry) && OnlyIdleGone(old(entries))
    {
      Publish(entry, engine);
      EvictIdle(Some(id));
    }

    method Publish(entry: Entry, engine: int)
      requires Valid() && entry in known && entry.loading
      modifies this`clock, entry
      ensures Consistent() && Resident(entry) && !entry.Idle() && entry.result == Loaded(engine)
      ensures entry.parked == entry.posting == old(entry.parked) && entry.granted == 1
    {
      assert EntryOk(entry);
      entry.loading := false;
      entry.result := Loaded(engine);
      var waiters := entry.waiters;
      entry.waiters := 0;
      entry.posting := waiters;
      entry.engine := Some(engine);
      entry.references := 1 + waiters;
      entry.granted := 1;
      entry.lastUsed := clock;
      clock := clock + 1;
      assert EntryOk(entry);
    }

    method FinishFailed(id: string, entry: Entry)
      requires Valid() && entry in known && entry.id == id && entry.loading
      modifies this`entries, entry
      ensures Valid() && entry.result == Failed
      ensures entry.parked == entry.posting == old(entry.parked) && entry.granted == 0
      ensures entries == if id in old(entries) && old(entries)[id] == entry then old(entries) - {id} else old(entries)
    {
      assert EntryOk(entry);
      entry.loading := false;
      entry.result := Failed;
      entry.posting := entry.waiters;
      entry.waiters := 0;
      if id in entries && entries[id] == entry { entries := entries - {id}; }
      assert EntryOk(entry);
    }

    /** One of the loader's signals. */
    method Signal(entry: Entry)
      requires Valid() && entry in known && entry.posting > 0
      modifies entry`ready, entry`posting
      ensures Valid() && entry.posting == old(entry.posting) - 1 && entry.ready == old(entry.ready) + 1
    {
      assert EntryOk(entry);
      entry.ready := entry.ready + 1;
      entry.posting := entry.posting - 1;
      assert EntryOk(entry);
    }

    /** A waiting thread passes the semaphore. */
    method PassSemaphore(entry: Entry)
      requires Valid() && entry in known && entry.ready > 0
      modifies entry`ready, entry`parked, entry`signalled
      ensures Valid() && old(entry.parked) > 0
      ensures entry.ready == old(entry.ready) - 1 && entry.parked == old(entry.parked) - 1
              && entry.signalled == old(entry.signalled) + 1
    {
      assert EntryOk(entry);
      entry.ready := entry.ready - 1;
      entry.parked := entry.parked - 1;
      entry.signalled := entry.signalled + 1;
      assert EntryOk(entry);
    }

    /** The thread reads the result it waited for: it is never missing, and a loaded
        engine is already referenced on its behalf. */
    method ReadResult(entry: Entry) returns (engine: Option<int>)
      requires Valid() && entry in known && entry.signalled > 0
      modifies entry`signalled, entry`granted
      ensures Valid() && entry.signalled == old(entry.signalled) - 1
      ensures entry.result.Loaded? ==> engine == Some(entry.result.engine) && entry.granted == old(entry.granted) + 1
      ensures !entry.result.Loaded? ==> entry.result.Failed? && engine == None && entry.granted == old(entry.granted)
    {
      assert EntryOk(entry);
      entry.signalled := entry.signalled - 1;
      engine := entry.engine;
      if entry.result.Loaded? { entry.granted := entry.granted + 1; }
      assert EntryOk(entry);
    }

    method MakeLease(entry: Entry)
      requires Valid() && entry in known && entry.granted > 0
      modifies entry`granted, entry`leases
      ensures Valid() && entry.granted == old(entry.granted) - 1 && entry.leases == old(entry.leases) + 1
    {
      assert EntryOk(entry);
      entry.granted := entry.granted - 1;
      entry.leases := entry.leases + 1;
    }

    /** A lease ends: its engine is still the resident one, so exactly its own
        reference goes. */
    method Release(id: string, engine: int, ghost held: Entry)
      requires Valid() && held in known && held.leases > 0 && held.id == id && held.engine == Some(engine)
      modifies this`entries, this`clock, held
      ensures Valid()
      ensures id in old(entries) && old(entries)[id] == held
      ensures held.references == old(held.references) - 1 && held.leases == old(held.leases) - 1
      ensures held.references > 0 ==> entries == old(entries)
      ensures OnlyIdleGone(old(entries))
    {
      assert EntryOk(held);
      if id in entries && entries[id].engine == Some(engine) {
        Dereference(entries[id]);
        if entries[id].references == 0 { EvictIdle(None); }
      }
    }

    method Dereference(entry: Entry)
      requires Valid() && entry in known && entry.leases > 0
      modifies this`clock, entry`references, entry`leases, entry`lastUsed
      ensures Consistent() && (entry.references > 0 ==> Valid())
      ensures entry.references == old(entry.references) - 1 && entry.leases == old(entry.leases) - 1
    {
      assert EntryOk(entry);
      entry.leases := entry.leases - 1;
      entry.references := entry.references - 1;
      entry.lastUsed := clock;
      clock := clock + 1;
      assert EntryOk(entry);
    }

    /** Keep the most recently used idle engine and remove all others. */
    method EvictIdle(excluding: Option<string>)
      requires Consistent()
      requires excluding.Some? && excluding.value in entries ==> !entries[excluding.value].Idle()
      modifies this`entries
      ensures Valid()
      ensures OnlyIdleGone(old(entries))
      ensures (exists i :: i in old(entries) && old(entries)[i].Idle()) ==>
                exists k :: k in entries && entries[k].Idle()
    {
      var idle := set i | i in entries && Some(i) != excluding && entries[i].Idle();
      assert forall i :: i in entries && entries[i].Idle() <==> i in idle;
      if |idle| <= 1 {
        AtMostOne(idle);
      } else {
        var keep := MostRecent(idle);
        Retain(idle, keep);
      }
    }

    method Retain(idle: set<string>, keep: string)
      requires Consistent() && keep in idle
      requires forall i :: i in entries && entries[i].Idle() <==> i in idle
      modifies this`entries
      ensures Valid() && entries == old(entries) - (idle - {keep}) && keep in entries && entries[keep].Idle()
    {
      entries := entries - (idle - {keep});
      forall e | e in known ensures EntryOk(e) { assert old(EntryOk(e)); }
    }

    method MostRecent(idle: set<string>) returns (keep: string)
      requires idle != {} && forall i :: i in idle ==> i in entries
      ensures keep in idle && forall i :: i in idle ==> entries[i].lastUsed <= entries[keep].lastUsed
    {
      keep :| keep in idle;
      var rest := idle - {keep};
      while rest != {}
        invariant rest <= idle && keep in idle
        invariant forall i :: i in idle - rest ==> entries[i].lastUsed <= entries[keep].lastUsed
        decreases rest
      {
        var i :| i in rest;
        if entries[i].lastUsed > entries[keep].lastUsed { keep := i; }
        rest := rest - {i};
      }
    }

    /** References are exactly the leases and the reservations of the loader and of
        waiters, and an engine that anyone refers to is the resident one. */
    lemma ReferencesExact(e: Entry)
      requires Valid() && e in known
      ensures e.engine.Some? ==> e.references == e.leases + e.granted + e.parked + e.signalled
      ensures e.engine.None? ==> e.references == e.leases == e.granted == 0
      ensures e.references > 0 ==> e.id in entries && entries[e.id] == e
    {
      assert EntryOk(e);
    }

    /** Every table entry is loading or has an engine; threads still waiting after
        the load are exactly the signals posted or owed. */
    lemma TableEntries(i: string)
      requires Valid() && i in entries
      ensures entries[i].loading != entries[i].engine.Some?
      ensures !entries[i].loading ==> entries[i].parked == entries[i].ready + entries[i].posting
    {
      assert EntryOk(entries[i]);
    }
  }

  lemma AtMostOne(s: set<string>)
    requires |s| <= 1
    ensures forall i, j :: i in s && j in s ==> i == j
  {
    forall i, j | i in s && j in s ensures i == j {
      assert s - {i} == {} by { assert |s - {i}| == |s| - 1; }
    }
  }
}
