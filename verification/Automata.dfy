/**
 * The table-driven automata of lltdAutomata.c.  Each is a list of edges scanned in full (the last
 * match wins) with a timeout for each state; the specifications are the three next-state functions.
 */
module Automata {

  datatype Edge = Edge(from: nat, to: nat, with: int)

  /** What the code keeps of an automaton between calls. */
  datatype Auto = Auto(state: nat, lastTs: nat)

  const TIMEOUT_INPUT := -1

  // ----- the tables the init functions fill ------------------------------------------------------

  const MAPPING_EDGES: seq<Edge> := [
    Edge(0, 1, 0), Edge(1, 0, -1), Edge(1, 0, 8), Edge(1, 1, 6), Edge(1, 1, 11), Edge(1, 1, 9), Edge(1, 1, 4),
    Edge(1, 2, 2), Edge(2, 2, 4), Edge(2, 2, -2), Edge(2, 1, -3), Edge(2, 0, -1), Edge(2, 0, 8)]
  const MAPPING_TIMEOUTS: seq<nat> := [0, 5, 30]

  const ENUMERATION_EDGES: seq<Edge> := [
    Edge(0, 1, 1), Edge(0, 1, 3), Edge(1, 2, 0), Edge(1, 1, 2), Edge(1, 1, 3), Edge(2, 1, 1), Edge(2, 0, 0),
    Edge(2, 1, 3)]
  const ENUMERATION_TIMEOUTS: seq<nat> := [0, 60, 30]

  const SESSION_EDGES: seq<Edge> := [
    Edge(1, 0, 0), Edge(0, 1, -1), Edge(0, 1, 1), Edge(0, 1, 7), Edge(0, 1, 6), Edge(1, 2, 2), Edge(2, 1, -1),
    Edge(2, 1, 1), Edge(2, 2, 4), Edge(2, 3, 3), Edge(2, 3, 5), Edge(1, 3, 3), Edge(3, 1, 8), Edge(3, 1, -1),
    Edge(3, 3, 5), Edge(3, 2, 4)]
  const SESSION_TIMEOUTS: seq<nat> := [1, 1, 1, 1]

  // ----- mapping: 0 Quiescent, 1 Command, 2 Emit ------------------------------------------------

  const QUIESCENT: nat := 0
  const COMMAND: nat := 1
  const EMIT: nat := 2

  function MappingNext(s: nat, input: int): nat {
    if s == QUIESCENT then (if input == 0 then COMMAND else QUIESCENT)
    else if s == COMMAND then (if input == -1 || input == 8 then QUIESCENT else if input == 2 then EMIT else COMMAND)
    else if s == EMIT then (if input == -1 || input == 8 then QUIESCENT else if input == -3 then COMMAND else EMIT)
    else s
  }

  // ----- enumeration (RepeatBand): 0 Quiescent, 1 Pausing, 2 Wait -------------------------------

  const PAUSING: nat := 1
  const WAIT: nat := 2

  const ENUM_SESS_COMPLETE := 0
  const ENUM_SESS_NOT_COMPLETE := 1
  const ENUM_HELLO := 2
  const ENUM_NEW_SESSION := 3

  function EnumerationNext(s: nat, input: int): nat {
    if input == ENUM_NEW_SESSION && s <= WAIT then PAUSING
    else if input == ENUM_SESS_NOT_COMPLETE && s <= WAIT then PAUSING
    else if input == ENUM_SESS_COMPLETE && s == PAUSING then WAIT
    else if input == ENUM_SESS_COMPLETE && s == WAIT then QUIESCENT
    else s
  }

  // ----- session: 0 Temporary, 1 Nascent, 2 Pending, 3 Complete ---------------------------------

  const TEMPORARY: nat := 0
  const NASCENT: nat := 1
  const PENDING: nat := 2
  const COMPLETE: nat := 3

  const SESS_DISCOVER_CONFLICTING := 0
  const SESS_RESET := 1
  const SESS_DISCOVER_NOACK := 2
  const SESS_DISCOVER_ACKING := 3
  const SESS_DISCOVER_NOACK_CHGD_XID := 4
  const SESS_DISCOVER_ACKING_CHGD_XID := 5
  const SESS_TOPO_RESET := 6
  const SESS_HELLO := 7

  function SessionNext(s: nat, input: int): nat {
    if s == TEMPORARY then (if input == -1 || input == 1 || input == 6 || input == 7 then NASCENT else TEMPORARY)
    else if s == NASCENT then
      (if input == 0 then TEMPORARY else if input == 2 then PENDING else if input == 3 then COMPLETE else NASCENT)
    else if s == PENDING then (if input == -1 || input == 1 then NASCENT else if input == 3 || input == 5 then COMPLETE else PENDING)
    else if s == COMPLETE then (if input == -1 || input == 8 then NASCENT else if input == 4 then PENDING else COMPLETE)
    else s
  }

  // ----- the edge scan --------------------------------------------------------------------------

  predicate Fires(e: Edge, s: nat, input: int) {
    e.from == s && e.with == input
  }

  /** s' is where a full scan ends: the target of the last edge that fires, or s when none does. */
  ghost predicate Selects(es: seq<Edge>, s: nat, input: int, s': nat) {
    || (exists i :: 0 <= i < |es| && Fires(es[i], s, input) && es[i].to == s' && NoneFires(es[i + 1..], s, input))
    || (s' == s && NoneFires(es, s, input))
  }

  ghost predicate NoneFires(es: seq<Edge>, s: nat, input: int) {
    forall i | 0 <= i < |es| :: !Fires(es[i], s, input)
  }

  lemma MappingEdges()
    ensures forall i | 0 <= i < |MAPPING_EDGES| ::
              MappingNext(MAPPING_EDGES[i].from, MAPPING_EDGES[i].with) == MAPPING_EDGES[i].to
  {
  }

  /** The table of the mapping automaton is MappingNext. */
  lemma MappingTable(s: nat, input: int, s': nat)
    requires s <= EMIT && Selects(MAPPING_EDGES, s, input, s')
    ensures s' == MappingNext(s, input)
  {
    var es := MAPPING_EDGES;
    MappingEdges();
    if NoneFires(es, s, input) {
      assert !Fires(es[0], s, input) && !Fires(es[1], s, input) && !Fires(es[2], s, input) && !Fires(es[7], s, input);
      assert !Fires(es[10], s, input) && !Fires(es[11], s, input) && !Fires(es[12], s, input);
    }
  }

  lemma EnumerationEdges()
    ensures forall i | 0 <= i < |ENUMERATION_EDGES| ::
              EnumerationNext(ENUMERATION_EDGES[i].from, ENUMERATION_EDGES[i].with) == ENUMERATION_EDGES[i].to
  {
  }

  /** The table of the enumeration automaton is EnumerationNext. */
  lemma EnumerationTable(s: nat, input: int, s': nat)
    requires s <= WAIT && Selects(ENUMERATION_EDGES, s, input, s')
    ensures s' == EnumerationNext(s, input)
  {
    var es := ENUMERATION_EDGES;
    EnumerationEdges();
    if NoneFires(es, s, input) {
      assert !Fires(es[0], s, input) && !Fires(es[1], s, input) && !Fires(es[2], s, input) && !Fires(es[5], s, input);
      assert !Fires(es[6], s, input) && !Fires(es[7], s, input);
    }
  }

  lemma SessionEdges()
    ensures forall i | 0 <= i < |SESSION_EDGES| ::
              SessionNext(SESSION_EDGES[i].from, SESSION_EDGES[i].with) == SESSION_EDGES[i].to
  {
  }

  /** The table of the session automaton is SessionNext. */
  lemma SessionTable(s: nat, input: int, s': nat)
    requires s <= COMPLETE && Selects(SESSION_EDGES, s, input, s')
    ensures s' == SessionNext(s, input)
  {
    var es := SESSION_EDGES;
    SessionEdges();
    if NoneFires(es, s, input) {
      assert !Fires(es[0], s, input) && !Fires(es[1], s, input) && !Fires(es[2], s, input) && !Fires(es[3], s, input);
      assert !Fires(es[4], s, input) && !Fires(es[5], s, input) && !Fires(es[6], s, input) && !Fires(es[7], s, input);
      assert !Fires(es[9], s, input) && !Fires(es[10], s, input) && !Fires(es[11], s, input) && !Fires(es[12], s, input);
      assert !Fires(es[13], s, input) && !Fires(es[15], s, input);
    }
  }

  // ----- switching ------------------------------------------------------------------------------

  /**
   * A timeout discards the input: the machine takes its -1 edge and is then offered -1 once more.
   * With one clock reading the second offer cannot time out again.
   */
  function SwitchMapping(a: Auto, input: int, now: nat): Auto
    requires a.state <= EMIT && a.lastTs <= now
  {
    if a.state != QUIESCENT && now - a.lastTs > MAPPING_TIMEOUTS[a.state] then Auto(QUIESCENT, now)
    else Auto(MappingNext(a.state, input), now)
  }

  function SwitchSession(a: Auto, input: int, now: nat): Auto
    requires a.state <= COMPLETE && a.lastTs <= now
  {
    if now - a.lastTs > 1 then Auto(NASCENT, now) else Auto(SessionNext(a.state, input), now)
  }

  class Automaton {
    const edges: seq<Edge>
    const timeouts: seq<nat>
    var currentState: nat
    var lastTs: nat

    ghost function View(): Auto
      reads this
    {
      Auto(currentState, lastTs)
    }

    ghost predicate IsMapping() reads this {
      edges == MAPPING_EDGES && timeouts == MAPPING_TIMEOUTS && currentState <= EMIT
    }

    ghost predicate IsEnumeration() reads this {
      edges == ENUMERATION_EDGES && timeouts == ENUMERATION_TIMEOUTS && currentState <= WAIT
    }

    ghost predicate IsSession() reads this {
      edges == SESSION_EDGES && timeouts == SESSION_TIMEOUTS && currentState <= COMPLETE
    }

    /** init_automata_mapping */
    constructor Mapping(now: nat)
      ensures IsMapping() && View() == Auto(QUIESCENT, now)
    {
      edges, timeouts, currentState, lastTs := MAPPING_EDGES, MAPPING_TIMEOUTS, 0, now;
    }

    /** init_automata_enumeration */
    constructor Enumeration(now: nat)
      ensures IsEnumeration() && View() == Auto(QUIESCENT, now)
    {
      edges, timeouts, currentState, lastTs := ENUMERATION_EDGES, ENUMERATION_TIMEOUTS, 0, now;
    }

    /** init_automata_session */
    constructor Session(now: nat)
      ensures IsSession() && View() == Auto(NASCENT, now)
    {
      edges, timeouts, currentState, lastTs := SESSION_EDGES, SESSION_TIMEOUTS, 1, now;
    }

    /** The scan of transitions_table, shared by the three switch functions. */
    method Scan(input: int) returns (newState: nat)
      ensures Selects(edges, currentState, input, newState)
    {
      newState := currentState;
      ghost var found := -1;
      for i := 0 to |edges|
        invariant -1 <= found < i
        invariant found >= 0 ==> Fires(edges[found], currentState, input) && edges[found].to == newState
        invariant found < 0 ==> newState == currentState
        invariant forall j | found < j < i :: !Fires(edges[j], currentState, input)
      {
        if currentState == edges[i].from && edges[i].with == input {
          newState := edges[i].to;
          found := i;
        }
      }
    }

    /** switch_state_mapping */
    method SwitchMappingState(input: int, now: nat)
      requires IsMapping() && lastTs <= now
      modifies this
      ensures IsMapping() && View() == SwitchMapping(old(View()), input, now)
      decreases now - lastTs
    {
      var timeout := timeouts[currentState] != 0 && now - lastTs > timeouts[currentState];
      var effective := if timeout then TIMEOUT_INPUT else input;
      var newState := Scan(effective);
      MappingTable(currentState, effective, newState);
      currentState := newState;
      lastTs := now;
      if timeout {
        SwitchMappingState(effective, now);
      }
    }

    /** switch_state_session */
    method SwitchSessionState(input: int, now: nat)
      requires IsSession() && lastTs <= now
      modifies this
      ensures IsSession() && View() == SwitchSession(old(View()), input, now)
      decreases now - lastTs
    {
      var timeout := timeouts[currentState] != 0 && now - lastTs > timeouts[currentState];
      var effective := if timeout then TIMEOUT_INPUT else input;
      var newState := Scan(effective);
      SessionTable(currentState, effective, newState);
      currentState := newState;
      lastTs := now;
      if timeout {
        SwitchSessionState(effective, now);
      }
    }

    /** switch_state_enumeration, which has no timeout of its own */
    method SwitchEnumerationState(input: int, now: nat)
      requires IsEnumeration()
      modifies this
      ensures IsEnumeration() && View() == Auto(EnumerationNext(old(currentState), input), now)
    {
      var newState := Scan(input);
      EnumerationTable(currentState, input, newState);
      currentState := newState;
      lastTs := now;
    }
  }
}
