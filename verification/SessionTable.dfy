/**
 * The session table of lltdAutomata.c: sixteen slots scanned in order, with a running count and a
 * cached completeness flag.  Its specification is a finite map of at most sixteen sessions.
 */
module Sessions {
  import opened Protocol

  const MAX_ENTRIES: nat := 16
  const SESSION_TIMEOUT_S: nat := 60

  datatype Key = Key(mac: Mac, generation: u16)
  datatype Session = Session(seqNumber: u16, state: byte, complete: bool, lastActivity: nat, created: nat)

  /** A session_entry; the key and the payload of an invalid slot mean nothing. */
  datatype Slot = Slot(valid: bool, key: Key, session: Session)

  const EMPTY_SLOT := Slot(false, Key(ZERO_MAC, 0), Session(0, 0, false, 0, 0))

  // ----- specification: a bounded map -----------------------------------------------------------

  type Table = map<Key, Session>

  /** Adding refreshes a known session, drops a new one when sixteen are held, and opens it otherwise. */
  function AddSession(m: Table, k: Key, xid: u16, now: nat): Table {
    if k in m then m[k := m[k].(seqNumber := xid, lastActivity := now)]
    else if |m| == MAX_ENTRIES then m
    else m[k := Session(xid, 2, false, now, now)]
  }

  predicate Expired(e: Session, now: nat) {
    now > e.lastActivity + SESSION_TIMEOUT_S
  }

  function Expire(m: Table, now: nat): Table {
    map k | k in m && !Expired(m[k], now) :: m[k]
  }

  predicate AllComplete(m: Table) {
    forall k | k in m :: m[k].complete
  }

  // ----- the slots as a map ---------------------------------------------------------------------

  ghost predicate UniqueKeys(s: seq<Slot>) {
    forall i, j | 0 <= i < j < |s| :: s[i].valid && s[j].valid ==> s[i].key != s[j].key
  }

  ghost function ToMap(s: seq<Slot>): Table {
    if s == [] then map[]
    else
      var n := |s| - 1;
      var m := ToMap(s[..n]);
      if s[n].valid then m[s[n].key := s[n].session] else m
  }

  ghost function NumValid(s: seq<Slot>): nat {
    if s == [] then 0 else NumValid(s[..|s| - 1]) + (if s[|s| - 1].valid then 1 else 0)
  }

  ghost predicate Holds(s: seq<Slot>, k: Key) {
    exists i :: 0 <= i < |s| && s[i].valid && s[i].key == k
  }

  /** m has exactly the valid slots of s as its entries. */
  ghost predicate Represents(s: seq<Slot>, m: Table) {
    && (forall i | 0 <= i < |s| && s[i].valid :: s[i].key in m && m[s[i].key] == s[i].session)
    && (forall k | k in m :: Holds(s, k))
  }

  /** With unique keys the slots are represented by their map, which has one entry for each valid slot. */
  lemma {:induction false} ToMapIsExact(s: seq<Slot>)
    requires UniqueKeys(s)
    ensures Represents(s, ToMap(s))
    ensures |ToMap(s)| == NumValid(s)
  {
    if s != [] {
      var n := |s| - 1;
      ToMapIsExact(s[..n]);
      AppendSlot(s[..n], ToMap(s[..n]), s[n]);
      assert s[..n] + [s[n]] == s;
    }
  }

  lemma AppendSlot(p: seq<Slot>, m: Table, e: Slot)
    requires UniqueKeys(p + [e]) && Represents(p, m)
    ensures e.valid ==> e.key !in m && Represents(p + [e], m[e.key := e.session])
    ensures !e.valid ==> Represents(p + [e], m)
  {
    var s := p + [e];
    forall k | Holds(p, k) ensures Holds(s, k) && (e.valid ==> e.key != k) {
      var i :| 0 <= i < |p| && p[i].valid && p[i].key == k;
      assert s[i].valid && s[i].key == k && s[|p|] == e;
    }
    if e.valid {
      assert s[|p|].key == e.key;
      assert Holds(s, e.key);
    }
  }

  /** No other map is represented by the same slots. */
  lemma RepresentsIsUnique(s: seq<Slot>, m: Table)
    requires UniqueKeys(s) && Represents(s, m)
    ensures m == ToMap(s)
  {
    ToMapIsExact(s);
    var m' := ToMap(s);
    forall k | k in m ensures k in m' && m'[k] == m[k] {
      var i :| 0 <= i < |s| && s[i].valid && s[i].key == k;
    }
    forall k | k in m' ensures k in m {
      var i :| 0 <= i < |s| && s[i].valid && s[i].key == k;
    }
  }

  lemma {:induction false} NumValidBound(s: seq<Slot>)
    ensures NumValid(s) <= |s|
    ensures NumValid(s) == |s| <==> forall i | 0 <= i < |s| :: s[i].valid
  {
    if s != [] {
      var n := |s| - 1;
      NumValidBound(s[..n]);
      assert forall i | 0 <= i < n :: s[..n][i] == s[i];
    }
  }

  /** Filling a free slot with a fresh key adds one entry to the map. */
  lemma FillSlot(s: seq<Slot>, i: nat, e: Slot)
    requires UniqueKeys(s) && i < |s| && !s[i].valid && e.valid && e.key !in ToMap(s)
    ensures UniqueKeys(s[i := e])
    ensures ToMap(s[i := e]) == ToMap(s)[e.key := e.session]
  {
    ToMapIsExact(s);
    var t, m := s[i := e], ToMap(s)[e.key := e.session];
    forall k | k in m ensures Holds(t, k) {
      if k == e.key {
        assert t[i].valid && t[i].key == k;
      } else {
        KeptSlot(s, i, e, k);
      }
    }
    RepresentsIsUnique(t, m);
  }

  /** A table with a free slot holds fewer sessions than it has slots. */
  lemma FreeSlotMeansRoom(s: seq<Slot>, i: nat)
    requires UniqueKeys(s) && i < |s| && !s[i].valid
    ensures |ToMap(s)| < |s|
  {
    ToMapIsExact(s);
    NumValidBound(s);
  }

  lemma NewKeyGrows(m: Table, k: Key, e: Session)
    requires k !in m
    ensures |m[k := e]| == |m| + 1
  {
    assert m[k := e].Keys == m.Keys + {k};
    assert |m.Keys + {k}| == |m.Keys| + 1;
  }

  lemma KeptSlot(s: seq<Slot>, i: nat, e: Slot, k: Key)
    requires i < |s| && Holds(s, k) && (s[i].valid ==> s[i].key != k)
    ensures Holds(s[i := e], k)
  {
    var j :| 0 <= j < |s| && s[j].valid && s[j].key == k;
    assert s[i := e][j].valid && s[i := e][j].key == k;
  }

  /** Writing through a valid slot without touching its key updates that entry of the map. */
  lemma RewriteSlot(s: seq<Slot>, i: nat, e: Slot)
    requires UniqueKeys(s) && i < |s| && s[i].valid && e.valid && e.key == s[i].key
    ensures UniqueKeys(s[i := e])
    ensures e.key in ToMap(s) && ToMap(s)[e.key] == s[i].session
    ensures ToMap(s[i := e]) == ToMap(s)[e.key := e.session]
  {
    ToMapIsExact(s);
    var t, m := s[i := e], ToMap(s)[e.key := e.session];
    forall k | k in m ensures Holds(t, k) {
      if k == e.key {
        assert t[i].valid && t[i].key == k;
      } else {
        KeptSlot(s, i, e, k);
      }
    }
    RepresentsIsUnique(t, m);
  }

  /** Invalidating a slot removes exactly its key. */
  lemma FreeSlot(s: seq<Slot>, i: nat)
    requires UniqueKeys(s) && i < |s| && s[i].valid
    ensures UniqueKeys(s[i := s[i].(valid := false)])
    ensures s[i].key in ToMap(s) && ToMap(s)[s[i].key] == s[i].session
    ensures ToMap(s[i := s[i].(valid := false)]) == ToMap(s) - {s[i].key}
    ensures |ToMap(s) - {s[i].key}| == |ToMap(s)| - 1
  {
    ToMapIsExact(s);
    var e := s[i].(valid := false);
    var t, m := s[i := e], ToMap(s) - {s[i].key};
    forall k | k in m ensures Holds(t, k) {
      KeptSlot(s, i, e, k);
    }
    RepresentsIsUnique(t, m);
    assert m.Keys == ToMap(s).Keys - {s[i].key};
    assert |m.Keys| == |ToMap(s).Keys| - 1;
  }

  /** Invalidating the expired slots is the filter on the map. */
  lemma ExpiredSlots(s: seq<Slot>, t: seq<Slot>, now: nat)
    requires UniqueKeys(s) && UniqueKeys(t) && |s| == |t|
    requires forall j | 0 <= j < |s| :: t[j] == if s[j].valid && Expired(s[j].session, now) then s[j].(valid := false) else s[j]
    ensures ToMap(t) == Expire(ToMap(s), now)
  {
    ToMapIsExact(s);
    var m := Expire(ToMap(s), now);
    forall k | k in m ensures Holds(t, k) {
      var j :| 0 <= j < |s| && s[j].valid && s[j].key == k;
      assert t[j].valid && t[j].key == k;
    }
    RepresentsIsUnique(t, m);
  }

  lemma EmptySlots(s: seq<Slot>)
    requires forall i | 0 <= i < |s| :: !s[i].valid
    ensures UniqueKeys(s) && ToMap(s) == map[]
  {
    RepresentsIsUnique(s, map[]);
  }

  // ----- the table ------------------------------------------------------------------------------

  class SessionTable {
    const entries: array<Slot>
    var count: nat
    var allComplete: bool

    ghost predicate Valid()
      reads this, entries
    {
      && entries.Length == MAX_ENTRIES
      && UniqueKeys(entries[..])
      && count == |ToMap(entries[..])|
    }

    /** The sessions held, as a map. */
    ghost function Contents(): Table
      reads this, entries
    {
      ToMap(entries[..])
    }

    /** session_table_create */
    constructor ()
      ensures Valid() && fresh(entries)
      ensures Contents() == map[] && allComplete
    {
      entries := new Slot[MAX_ENTRIES](_ => EMPTY_SLOT);
      count, allComplete := 0, true;
      new;
      EmptySlots(entries[..]);
    }

    /** session_table_find: the index of the matching slot, -1 for NULL.  The sequence number is ignored. */
    method Find(k: Key) returns (slot: int)
      requires Valid()
      ensures slot == -1 <==> k !in Contents()
      ensures slot != -1 ==> 0 <= slot < entries.Length && entries[slot].valid && entries[slot].key == k
      ensures slot != -1 ==> Contents()[k] == entries[slot].session
    {
      ToMapIsExact(entries[..]);
      for i := 0 to entries.Length
        invariant forall j | 0 <= j < i :: !(entries[j].valid && entries[j].key == k)
      {
        if entries[i].valid && SameAddress(entries[i].key.mac, k.mac) && entries[i].key.generation == k.generation {
          assert Holds(entries[..], k);
          return i;
        }
      }
      assert !Holds(entries[..], k);
      return -1;
    }

    /** session_table_add on a key that is held: its number and activity are refreshed. */
    method Refresh(slot: nat, xid: u16, now: nat)
      requires Valid() && slot < entries.Length && entries[slot].valid
      modifies entries
      ensures Valid() && entries[slot].valid && entries[slot].key == old(entries[slot].key)
      ensures var k := old(entries[slot].key);
              k in old(Contents()) && Contents() == AddSession(old(Contents()), k, xid, now)
    {
      var e := entries[slot].(session := entries[slot].session.(seqNumber := xid, lastActivity := now));
      RewriteSlot(entries[..], slot, e);
      entries[slot] := e;
    }

    /** session_table_add on a free slot. */
    method Fill(i: nat, k: Key, xid: u16, now: nat)
      requires Valid() && i < entries.Length && !entries[i].valid && k !in Contents()
      modifies this, entries
      ensures Valid() && entries[i].valid && entries[i].key == k
      ensures |old(Contents())| < MAX_ENTRIES && Contents() == AddSession(old(Contents()), k, xid, now)
      ensures !allComplete
    {
      var e := Slot(true, k, Session(xid, 2, false, now, now));
      FreeSlotMeansRoom(entries[..], i);
      assert !entries[..][i].valid;
      FillSlot(entries[..], i, e);
      NewKeyGrows(Contents(), k, e.session);
      entries[i] := e;
      count := count + 1;
      allComplete := false;
    }

    /** session_table_add: the index of the entry, -1 for NULL. */
    method Add(k: Key, xid: u16, now: nat) returns (slot: int)
      requires Valid()
      modifies this, entries
      ensures Valid() && Contents() == AddSession(old(Contents()), k, xid, now)
      ensures slot == -1 <==> k !in old(Contents()) && |old(Contents())| == MAX_ENTRIES
      ensures slot != -1 ==> 0 <= slot < entries.Length && entries[slot].valid && entries[slot].key == k
      ensures allComplete == (old(allComplete) && Contents().Keys == old(Contents()).Keys)
    {
      slot := Find(k);
      if slot != -1 {
        Refresh(slot, xid, now);
        assert Contents().Keys == old(Contents()).Keys;
        return slot;
      }
      for i := 0 to entries.Length
        invariant unchanged(this) && unchanged(entries)
        invariant forall j | 0 <= j < i :: entries[j].valid
      {
        if !entries[i].valid {
          Fill(i, k, xid, now);
          assert k in Contents().Keys && k !in old(Contents()).Keys;
          return i;
        }
      }
      ToMapIsExact(entries[..]);
      NumValidBound(entries[..]);
      assert forall j | 0 <= j < |entries[..]| :: entries[..][j].valid;
      return -1;
    }

    /** The writes lltdLoop makes through the entry that session_table_add returned. */
    method Note(slot: nat, state: byte, now: nat, complete: bool)
      requires Valid() && slot < entries.Length && entries[slot].valid
      modifies entries
      ensures Valid()
      ensures var k := old(entries[slot].key);
              k in old(Contents()) &&
              var e := old(Contents())[k];
              Contents() == old(Contents())[k := e.(state := state, lastActivity := now, complete := e.complete || complete)]
    {
      var e := entries[slot].session;
      var e' := e.(state := state, lastActivity := now, complete := e.complete || complete);
      RewriteSlot(entries[..], slot, entries[slot].(session := e'));
      entries[slot] := entries[slot].(session := e');
    }

    /** session_table_remove */
    method Remove(k: Key)
      requires Valid()
      modifies this, entries
      ensures Valid() && Contents() == old(Contents()) - {k}
      ensures allComplete == AllComplete(Contents())
    {
      var i := 0;
      while i < entries.Length
        invariant 0 <= i <= entries.Length
        invariant forall j | 0 <= j < i :: !(entries[j].valid && entries[j].key == k)
      {
        if entries[i].valid && SameAddress(entries[i].key.mac, k.mac) && entries[i].key.generation == k.generation {
          break;
        }
        i := i + 1;
      }
      if i < entries.Length {
        FreeSlot(entries[..], i);
        entries[i] := entries[i].(valid := false);
        if count > 0 {
          count := count - 1;
        }
      } else {
        ToMapIsExact(entries[..]);
        assert !Holds(entries[..], k);
      }
      UpdateCompleteStatus();
    }

    /** session_table_update_complete_status */
    method UpdateCompleteStatus()
      requires Valid()
      modifies this`allComplete
      ensures Valid() && allComplete == AllComplete(Contents())
    {
      ToMapIsExact(entries[..]);
      var complete, anyValid := true, false;
      for i := 0 to entries.Length
        invariant complete ==> forall j | 0 <= j < i :: entries[j].valid ==> entries[j].session.complete
        invariant anyValid <==> exists j :: 0 <= j < i && entries[j].valid
        invariant complete
      {
        if entries[i].valid {
          anyValid := true;
          if !entries[i].session.complete {
            complete := false;
            break;
          }
        }
      }
      allComplete := !anyValid || complete;
      if complete {
        forall k | k in Contents() ensures Contents()[k].complete {
          var j :| 0 <= j < |entries[..]| && entries[..][j].valid && entries[..][j].key == k;
        }
      }
    }

    /** session_table_is_empty */
    method IsEmpty() returns (b: bool)
      requires Valid()
      ensures b <==> Contents() == map[]
    {
      b := count == 0;
    }

    /** session_table_clear */
    method Clear()
      requires Valid()
      modifies this, entries
      ensures Valid() && Contents() == map[] && allComplete
    {
      for i := 0 to entries.Length
        invariant forall j | 0 <= j < i :: !entries[j].valid
      {
        entries[i] := EMPTY_SLOT;
      }
      count, allComplete := 0, true;
      EmptySlots(entries[..]);
    }

    /** The expiry scan of automata_tick. */
    method ExpireSessions(now: nat)
      requires Valid()
      modifies this, entries
      ensures Valid() && Contents() == Expire(old(Contents()), now)
      ensures allComplete == AllComplete(Contents())
    {
      ghost var was := entries[..];
      for i := 0 to entries.Length
        invariant Valid()
        invariant forall j | i <= j < entries.Length :: entries[j] == was[j]
        invariant forall j | 0 <= j < i :: entries[j] == if was[j].valid && Expired(was[j].session, now) then was[j].(valid := false) else was[j]
      {
        if entries[i].valid {
          if now > entries[i].session.lastActivity + SESSION_TIMEOUT_S {
            FreeSlot(entries[..], i);
            entries[i] := entries[i].(valid := false);
            if count > 0 {
              count := count - 1;
            }
          }
        }
      }
      ExpiredSlots(was, entries[..], now);
      UpdateCompleteStatus();
    }
  }

  /** The two cardinality facts the run invariants use. */
  lemma AddKeepsBound(m: Table, k: Key, xid: u16, now: nat)
    requires |m| <= MAX_ENTRIES
    ensures |AddSession(m, k, xid, now)| <= MAX_ENTRIES
    ensures k in AddSession(m, k, xid, now) <==> k in m || |m| < MAX_ENTRIES
  {
  }

  lemma ExpireKeepsBound(m: Table, now: nat)
    ensures |Expire(m, now)| <= |m|
  {
    var e := Expire(m, now);
    assert e.Keys <= m.Keys;
    SubsetSize(e.Keys, m.Keys);
  }

  lemma {:induction false} SubsetSize<T>(a: set<T>, b: set<T>)
    requires a <= b
    ensures |a| <= |b|
  {
    if a != {} {
      var x :| x in a;
      SubsetSize(a - {x}, b - {x});
    }
  }
}
