/**
  The forwarding-session state machine (main_final.py:75-86, 133-199): a
  chat asks to talk to the admin, its next text pairs it with the admin,
  later texts are relayed to the partner, and a session ends by an explicit
  exit or by the periodic sweep of idle entries. Two maps carry the state:
  `links` (the source's `forward_sessions`: PENDING or a partner id) and
  `stamps` (`session_timestamp`: the last activity, in whole seconds).
 */
module Sessions {
  import opened Wrappers
  import Text

  datatype State = Pending | PairedWith(partner: int)

  /** Python's truth value of a stored state: "PENDING" is true, a partner id unless it is 0. */
  predicate Truthy(s: State) {
    s.Pending? || s.partner != 0
  }

  /** Seconds of inactivity after which the sweep ends a session. */
  const SessionTimeout := 300

  /** The menu buttons, compared with the stripped text before any session state. */
  const MenuLanguage := "🐾 桃奈语"
  const MenuForward := "🐾 双向传话"
  const MenuDeveloper := "🐾 开发者入口"

  /** A snapshot of both maps. */
  datatype Table = Table(links: map<int, State>, stamps: map<int, int>)

  /** Every session entry has a last-activity time, so the sweep can reach it. */
  predicate Stamped(t: Table) {
    t.links.Keys <= t.stamps.Keys
  }

  /** Every pairing is returned by its partner. */
  predicate Symmetric(t: Table) {
    forall a :: a in t.links && t.links[a].PairedWith? ==>
      t.links[a].partner in t.links && t.links[t.links[a].partner] == PairedWith(a)
  }

  // ---------------------------------------------------------------- transitions

  /** The forwarding button: the caller's entry becomes PENDING, whatever it was. */
  function Requested(t: Table, cid: int, now: int): (r: Table)
    ensures r.links.Keys == t.links.Keys + {cid} && r.stamps.Keys == t.stamps.Keys + {cid}
    ensures r.links[cid] == Pending && r.stamps[cid] == now
    ensures forall id :: id in t.links && id != cid ==> r.links[id] == t.links[id]
    ensures forall id :: id in t.stamps && id != cid ==> r.stamps[id] == t.stamps[id]
  {
    Table(t.links[cid := Pending], t.stamps[cid := now])
  }

  /** A text from a PENDING chat: caller and admin point at each other. */
  function Paired(t: Table, admin: int, cid: int, now: int): (r: Table)
    ensures r.links.Keys == t.links.Keys + {cid, admin} && r.stamps.Keys == t.stamps.Keys + {cid, admin}
    ensures r.links[cid] == PairedWith(admin) && r.links[admin] == PairedWith(cid)
    ensures r.stamps[cid] == now && r.stamps[admin] == now
    ensures forall id :: id in t.links && id != cid && id != admin ==> r.links[id] == t.links[id]
    ensures forall id :: id in t.stamps && id != cid && id != admin ==> r.stamps[id] == t.stamps[id]
  {
    Table(t.links[cid := PairedWith(admin)][admin := PairedWith(cid)], t.stamps[cid := now][admin := now])
  }

  /** A text from a paired chat: both last-activity times move to now. */
  function Relayed(t: Table, cid: int, partner: int, now: int): (r: Table)
    ensures r.links == t.links
    ensures r.stamps.Keys == t.stamps.Keys + {cid, partner}
    ensures r.stamps[cid] == now && r.stamps[partner] == now
    ensures forall id :: id in t.stamps && id != cid && id != partner ==> r.stamps[id] == t.stamps[id]
  {
    Table(t.links, t.stamps[cid := now][partner := now])
  }

  /** The partner an exit also tears down: a stored partner id that is true. */
  function ExitPartner(t: Table, cid: int): (r: Option<int>)
    ensures r.Some? <==> cid in t.links && t.links[cid].PairedWith? && t.links[cid].partner != 0
    ensures r.Some? ==> t.links[cid] == PairedWith(r.value)
  {
    if cid in t.links && t.links[cid].PairedWith? && t.links[cid].partner != 0
    then Some(t.links[cid].partner) else None
  }

  /**
    The exit button: the caller's entries go and, when it was paired, the
    partner's too. From PENDING the popped value is the string "PENDING",
    which is no chat id, so only the caller's entries go.
   */
  function Exited(t: Table, cid: int): (r: Table)
    ensures cid !in r.links && cid !in r.stamps
    ensures ExitPartner(t, cid).Some? ==> ExitPartner(t, cid).value !in r.links && ExitPartner(t, cid).value !in r.stamps
    ensures r.links.Keys <= t.links.Keys && r.stamps.Keys <= t.stamps.Keys
    ensures forall id :: id in r.links ==> r.links[id] == t.links[id]
    ensures forall id :: id in r.stamps ==> r.stamps[id] == t.stamps[id]
  {
    match ExitPartner(t, cid)
    case Some(p) => Table(t.links - {cid} - {p}, t.stamps - {cid} - {p})
    case None => Table(t.links - {cid}, t.stamps - {cid})
  }

  /** The ids whose last activity is more than the timeout ago. */
  function Expired(t: Table, now: int): set<int> {
    set id | id in t.stamps && now - t.stamps[id] > SessionTimeout
  }

  /** The sweep: every expired id loses its session and its time, and nothing else changes. */
  function Swept(t: Table, now: int): (r: Table)
    ensures forall id :: id in r.stamps ==> now - r.stamps[id] <= SessionTimeout
    ensures r.links.Keys <= t.links.Keys && r.stamps.Keys <= t.stamps.Keys
    ensures forall id :: id in r.links ==> r.links[id] == t.links[id]
    ensures forall id :: id in r.stamps ==> r.stamps[id] == t.stamps[id]
  {
    Table(t.links - Expired(t, now), t.stamps - Expired(t, now))
  }

  datatype Action =
    | LanguageLink
    | ForwardPrompt
    | DeveloperListing
    | PairedWithAdmin
    | RelayedTo(partner: int)
    | Unrecognized

  /**
    The branch a text takes: menu buttons first (the developer button only
    for the admin), then the caller's session state.
   */
  function Dispatch(t: Table, admin: int, cid: int, text: string): (a: Action)
    ensures Text.Strip(text) == MenuLanguage ==> a == LanguageLink
    ensures Text.Strip(text) == MenuForward ==> a == ForwardPrompt
    ensures a == DeveloperListing <==> Text.Strip(text) == MenuDeveloper && cid == admin
    ensures (a.PairedWithAdmin? || a.RelayedTo? || a.Unrecognized?) ==> a == SessionAction(t, cid)
    ensures (Text.Strip(text) != MenuLanguage && Text.Strip(text) != MenuForward
             && !(Text.Strip(text) == MenuDeveloper && cid == admin))
            ==> a == SessionAction(t, cid)
  {
    var s := Text.Strip(text);
    if s == MenuLanguage then LanguageLink
    else if s == MenuForward then ForwardPrompt
    else if s == MenuDeveloper && cid == admin then DeveloperListing
    else SessionAction(t, cid)
  }

  /** A text that is no menu button: PENDING pairs, a true partner id relays, anything else is unrecognised. */
  function SessionAction(t: Table, cid: int): (a: Action)
    ensures a.PairedWithAdmin? || a.RelayedTo? || a.Unrecognized?
    ensures a == PairedWithAdmin <==> cid in t.links && t.links[cid] == Pending
    ensures a.RelayedTo? <==> cid in t.links && t.links[cid].PairedWith? && t.links[cid].partner != 0
    ensures a.RelayedTo? ==> t.links[cid] == PairedWith(a.partner)
  {
    if cid in t.links && t.links[cid] == Pending then PairedWithAdmin
    else if cid in t.links && Truthy(t.links[cid]) then RelayedTo(t.links[cid].partner)
    else Unrecognized
  }

  /** The maps after an action. */
  function AfterAction(t: Table, admin: int, cid: int, a: Action, now: int): Table {
    match a
    case ForwardPrompt => Requested(t, cid, now)
    case PairedWithAdmin => Paired(t, admin, cid, now)
    case RelayedTo(p) => Relayed(t, cid, p, now)
    case _ => t
  }

  /** The maps after a text. */
  function AfterText(t: Table, admin: int, cid: int, text: string, now: int): Table {
    AfterAction(t, admin, cid, Dispatch(t, admin, cid, text), now)
  }

  // ---------------------------------------------------------------- lemmas

  /** Every transition keeps each session stamped. */
  lemma StampedKept(t: Table, admin: int, cid: int, text: string, now: int)
    requires Stamped(t)
    ensures Stamped(AfterText(t, admin, cid, text, now))
    ensures Stamped(Exited(t, cid))
    ensures Stamped(Swept(t, now))
  {
  }

  /** A stamped session idle for more than the timeout does not survive the sweep. */
  lemma IdleSessionSwept(t: Table, id: int, now: int)
    requires Stamped(t) && id in t.links && now - t.stamps[id] > SessionTimeout
    ensures id !in Swept(t, now).links && id !in Swept(t, now).stamps
  {
  }

  /** An id survives the sweep, untouched, exactly when it has no time or its time is recent enough. */
  lemma SweepExact(t: Table, id: int, now: int)
    ensures id in Swept(t, now).links <==>
              id in t.links && (id !in t.stamps || now - t.stamps[id] <= SessionTimeout)
    ensures id in Swept(t, now).stamps <==> id in t.stamps && now - t.stamps[id] <= SessionTimeout
    ensures id in Swept(t, now).links ==> Swept(t, now).links[id] == t.links[id]
    ensures id in Swept(t, now).stamps ==> Swept(t, now).stamps[id] == t.stamps[id]
  {
  }

  /** Sweeping twice at the same time sweeps nothing more. */
  lemma SweepIdempotent(t: Table, now: int)
    ensures Swept(Swept(t, now), now) == Swept(t, now)
  {
    var once := Swept(t, now);
    assert Expired(once, now) == {};
    assert once.links - {} == once.links;
    assert once.stamps - {} == once.stamps;
  }

  /** A session refreshed by a relay at time `now` survives every sweep up to `now + 300`. */
  lemma RelayedSurvivesSweep(t: Table, cid: int, p: int, now: int, later: int)
    requires cid in t.links && later <= now + SessionTimeout
    ensures cid in Swept(Relayed(t, cid, p, now), later).links
  {
  }

  /** A second exit changes nothing. */
  lemma ExitIdempotent(t: Table, cid: int)
    ensures Exited(Exited(t, cid), cid) == Exited(t, cid)
  {
    var once := Exited(t, cid);
    assert ExitPartner(once, cid) == None;
    assert once.links - {cid} == once.links;
    assert once.stamps - {cid} == once.stamps;
  }

  /** An exit touches no id but the caller and its partner. */
  lemma ExitFrame(t: Table, cid: int, id: int)
    requires id != cid && (ExitPartner(t, cid).None? || id != ExitPartner(t, cid).value)
    ensures id in Exited(t, cid).links <==> id in t.links
    ensures id in Exited(t, cid).stamps <==> id in t.stamps
    ensures id in t.links ==> Exited(t, cid).links[id] == t.links[id]
    ensures id in t.stamps ==> Exited(t, cid).stamps[id] == t.stamps[id]
  {
  }

  /** Leaving from PENDING removes the caller's entries only. */
  lemma PendingExitRemovesCallerOnly(t: Table, cid: int)
    requires cid in t.links && t.links[cid] == Pending
    ensures Exited(t, cid) == Table(t.links - {cid}, t.stamps - {cid})
  {
  }

  /** In a mutual pairing, either side's exit ends the session of both, with the same result. */
  lemma ExitFromEitherSide(t: Table, a: int, b: int)
    requires a != 0 && b != 0 && a in t.links && b in t.links
    requires t.links[a] == PairedWith(b) && t.links[b] == PairedWith(a)
    ensures Exited(t, a) == Exited(t, b)
    ensures a !in Exited(t, a).links && b !in Exited(t, a).links
    ensures a !in Exited(t, a).stamps && b !in Exited(t, a).stamps
  {
    assert t.links - {a} - {b} == t.links - {b} - {a};
    assert t.stamps - {a} - {b} == t.stamps - {b} - {a};
  }

  /**
    In a mutual pairing, a non-menu text from either side reaches the other;
    the developer button, which is only a menu button for the admin, is
    relayed like any text when the other side sends it.
   */
  lemma RelayBothWays(t: Table, admin: int, a: int, fromA: string, fromAdmin: string)
    requires a != 0 && admin != 0 && a != admin && a in t.links && admin in t.links
    requires t.links[a] == PairedWith(admin) && t.links[admin] == PairedWith(a)
    requires Text.Strip(fromA) != MenuLanguage && Text.Strip(fromA) != MenuForward
    requires Text.Strip(fromAdmin) != MenuLanguage && Text.Strip(fromAdmin) != MenuForward
    requires Text.Strip(fromAdmin) != MenuDeveloper
    ensures Dispatch(t, admin, a, fromA) == RelayedTo(admin)
    ensures Dispatch(t, admin, admin, fromAdmin) == RelayedTo(a)
  {
  }

  /** A relay keeps every pairing and refreshes exactly the two times. */
  lemma RelayKeepsPairing(t: Table, admin: int, cid: int, text: string, now: int)
    requires Dispatch(t, admin, cid, text).RelayedTo?
    ensures var p := Dispatch(t, admin, cid, text).partner;
            && cid in t.links && t.links[cid] == PairedWith(p) && p != 0
            && AfterText(t, admin, cid, text, now).links == t.links
            && AfterText(t, admin, cid, text, now).stamps == t.stamps[cid := now][p := now]
  {
  }

  /** The language button never changes a session, whatever state the caller is in. */
  lemma MenuBeforeSession(t: Table, admin: int, cid: int, text: string, now: int)
    requires Text.Strip(text) == MenuLanguage
    ensures AfterText(t, admin, cid, text, now) == t
  {
  }

  /** Pairing with an idle admin keeps all pairings mutual. */
  lemma PairKeepsSymmetry(t: Table, admin: int, cid: int, now: int)
    requires Symmetric(t) && cid != admin && admin !in t.links
    requires cid in t.links && t.links[cid] == Pending
    ensures Symmetric(Paired(t, admin, cid, now))
  {
    var t' := Paired(t, admin, cid, now);
    forall a | a in t'.links && t'.links[a].PairedWith?
      ensures t'.links[a].partner in t'.links && t'.links[t'.links[a].partner] == PairedWith(a)
    {
      if a != cid && a != admin {
        var p := t.links[a].partner;
        assert p != admin;
        assert p != cid;
      }
    }
  }

  /** An exit keeps all pairings mutual, as long as no chat has id 0. */
  lemma ExitKeepsSymmetry(t: Table, cid: int)
    requires Symmetric(t) && 0 !in t.links
    ensures Symmetric(Exited(t, cid))
  {
    var t' := Exited(t, cid);
    forall a | a in t'.links && t'.links[a].PairedWith?
      ensures t'.links[a].partner in t'.links && t'.links[t'.links[a].partner] == PairedWith(a)
    {
      var p := t.links[a].partner;
      assert t.links[p] == PairedWith(a);
      if cid in t.links && t.links[cid].PairedWith? {
        assert t.links[cid].partner != 0;
      }
    }
  }

  /**
    Pressing the forwarding button while paired leaves the old partner
    pointing at the caller: pairings need not stay mutual.
   */
  lemma RequestWhilePairedBreaksSymmetry()
    ensures var t := Table(map[1 := PairedWith(2), 2 := PairedWith(1)], map[1 := 0, 2 := 0]);
            Symmetric(t) && !Symmetric(Requested(t, 1, 5))
  {
    var t := Table(map[1 := PairedWith(2), 2 := PairedWith(1)], map[1 := 0, 2 := 0]);
    var t' := Requested(t, 1, 5);
    assert t'.links[2] == PairedWith(1) && t'.links[1] == Pending;
  }

  /**
    A second chat pairing with a busy admin takes over the admin's link; the
    first chat still points at the admin and its texts still reach it.
   */
  lemma SecondPairingStrandsFirst(admin: int, first: int, second: int, now: int)
    requires admin != 0 && first != 0 && second != 0
    requires admin != first && admin != second && first != second
    ensures var t := Table(map[first := PairedWith(admin), admin := PairedWith(first), second := Pending],
                           map[first := 0, admin := 0, second := 0]);
            var t' := Paired(t, admin, second, now);
            && t'.links[first] == PairedWith(admin)
            && t'.links[admin] == PairedWith(second)
            && !Symmetric(t')
            && Dispatch(t', admin, first, "hi") == RelayedTo(admin)
  {
    var t := Table(map[first := PairedWith(admin), admin := PairedWith(first), second := Pending],
                   map[first := 0, admin := 0, second := 0]);
    var t' := Paired(t, admin, second, now);
    assert t'.links[t'.links[first].partner] != PairedWith(first);
    assert Text.Strip("hi") == "hi" by {
      assert !Text.IsSpace('h') && !Text.IsSpace('i');
    }
  }

  // ---------------------------------------------------------------- the registry

  lemma NonEmptyHasMember(s: set<int>)
    requires s != {}
    ensures exists x: int :: x in s
  {
    if forall x: int :: x !in s {
      assert false;
    }
  }

  class SessionRegistry {
    const admin: int
    var links: map<int, State>
    var stamps: map<int, int>

    function Snapshot(): Table
      reads this
    {
      Table(links, stamps)
    }

    ghost predicate Valid()
      reads this
    {
      Stamped(Snapshot())
    }

    constructor (admin: int)
      ensures Valid() && this.admin == admin
      ensures links == map[] && stamps == map[]
    {
      this.admin := admin;
      links := map[];
      stamps := map[];
    }

    /** The forwarding button: only the caller's entry and time change. */
    method RequestForward(cid: int, now: int)
      requires Valid()
      modifies this
      ensures Valid()
      ensures Snapshot() == Requested(old(Snapshot()), cid, now)
    {
      links := links[cid := Pending];
      stamps := stamps[cid := now];
    }

    /** `on_text`: the branch the text takes, and the maps after it. */
    method OnText(cid: int, text: string, now: int) returns (action: Action)
      requires Valid()
      modifies this
      ensures Valid()
      ensures action == Dispatch(old(Snapshot()), admin, cid, text)
      ensures Snapshot() == AfterText(old(Snapshot()), admin, cid, text, now)
    {
      var s := Text.Strip(text);
      if s == MenuLanguage {
        return LanguageLink;
      }
      if s == MenuForward {
        RequestForward(cid, now);
        return ForwardPrompt;
      }
      if s == MenuDeveloper && cid == admin {
        return DeveloperListing;
      }
      action := OnSessionText(cid, now);
    }

    /** The part of `on_text` after the menu buttons: pairing, relaying, or nothing. */
    method OnSessionText(cid: int, now: int) returns (action: Action)
      requires Valid()
      modifies this
      ensures Valid()
      ensures action == SessionAction(old(Snapshot()), cid)
      ensures Snapshot() == AfterAction(old(Snapshot()), admin, cid, action, now)
    {
      if cid in links && links[cid] == Pending {
        links := links[cid := PairedWith(admin)];
        links := links[admin := PairedWith(cid)];
        stamps := stamps[cid := now];
        stamps := stamps[admin := now];
        return PairedWithAdmin;
      }
      if cid in links && Truthy(links[cid]) {
        var partner := links[cid].partner;
        stamps := stamps[cid := now];
        stamps := stamps[partner := now];
        return RelayedTo(partner);
      }
      return Unrecognized;
    }

    /** `on_exit_forward`: returns the partner told about the exit, if any. */
    method Exit(cid: int) returns (notified: Option<int>)
      requires Valid()
      modifies this
      ensures Valid()
      ensures notified == ExitPartner(old(Snapshot()), cid)
      ensures Snapshot() == Exited(old(Snapshot()), cid)
    {
      notified := None;
      if cid in links {
        var state := links[cid];
        links := links - {cid};
        stamps := stamps - {cid};
        if state.PairedWith? && state.partner != 0 {
          notified := Some(state.partner);
          links := links - {state.partner};
          stamps := stamps - {state.partner};
        }
      } else {
        stamps := stamps - {cid};
      }
    }

    /**
      `cleanup_sessions`: walks a snapshot of the times and removes the
      entries of every expired id; returns the ids whose session was true,
      the ones the source sends a timeout notice for.
     */
    method Sweep(now: int) returns (timedOut: set<int>)
      requires Valid()
      modifies this
      ensures Valid()
      ensures Snapshot() == Swept(old(Snapshot()), now)
      ensures timedOut == set id | id in Expired(old(Snapshot()), now) && id in old(links) && Truthy(old(links)[id])
    {
      var snapshot := stamps;
      ghost var before := links;
      ghost var expired := Expired(Snapshot(), now);
      var todo := snapshot.Keys;
      timedOut := {};
      while todo != {}
        invariant todo <= snapshot.Keys
        invariant links == before - (expired - todo)
        invariant stamps == snapshot - (expired - todo)
        invariant timedOut == set id | id in expired - todo && id in before && Truthy(before[id])
        decreases todo
      {
        NonEmptyHasMember(todo);
        var uid :| uid in todo;
        if now - snapshot[uid] > SessionTimeout {
          if uid in links && Truthy(links[uid]) {
            timedOut := timedOut + {uid};
          }
          links := links - {uid};
          stamps := stamps - {uid};
        }
        todo := todo - {uid};
      }
    }
  }
}
