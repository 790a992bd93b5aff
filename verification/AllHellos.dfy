/** Both sources of Hellos on one interface: the tick, which is spaced, and the parser, which answers Discovers. */
module AllHellos {
  import opened LoopSpec
  import opened LoopRuns
  import opened LoopProperties
  import opened ResponderSpec
  import opened ResponderProperties
  import opened Protocol
  import opened Responder
  import opened DarwinLoop
  import opened Machine

  /** The inputs the parser gets in some rounds. */
  function FramesOf(rounds: seq<Round>): seq<Input> {
    if rounds == [] then []
    else FramesOf(rounds[..|rounds| - 1]) + FrameOf(rounds[|rounds| - 1])
  }

  function FrameOf(r: Round): seq<Input> {
    if r.event.Received? then [Input(r.event.frame, r.env)] else []
  }

  lemma {:induction false} OnlyInputs(ctx: int, rounds: seq<Round>)
    ensures Only(InputsOf(ctx, rounds), ctx) == FramesOf(rounds)
  {
    if rounds != [] {
      var n := |rounds| - 1;
      OnlyInputs(ctx, rounds[..n]);
      OnlyAppend(InputsOf(ctx, rounds[..n]), InputOf(ctx, rounds[n]), ctx);
      if rounds[n].event.Received? {
        var x := InputOf(ctx, rounds[n]);
        assert Only(x, ctx) == Only(x[..0], ctx) + [x[0].1];
      }
    }
  }

  /** The bytes the loop's parser sends on its interface are those of a new responder for the frames of its rounds. */
  lemma LoopSends(ctx: int, rounds: seq<Round>)
    ensures Only(Serve(map[], InputsOf(ctx, rounds)).1, ctx) == BytesSent(Sent(Respond, FRESH, FramesOf(rounds)))
  {
    WireIsIsolated(InputsOf(ctx, rounds), ctx);
    OnlyInputs(ctx, rounds);
  }

  // ----- when the parser sends a Hello ----------------------------------------------------------

  /** The parser accepts the round's frame as a Discover to answer. */
  predicate AcceptsDiscover(st: Iface, r: Round) {
    r.event.Received? && IsAnswered(r.event.frame) && Accepts(st, r.event.frame)
  }

  /** The times of the accepted Discovers. */
  function AcceptedTimes(st: Iface, rounds: seq<Round>): seq<nat> {
    if rounds == [] then []
    else
      var n := |rounds| - 1;
      AcceptedTimes(st, rounds[..n])
      + (if AcceptsDiscover(Machine.Run(Respond, st, FramesOf(rounds[..n])), rounds[n]) then [rounds[n].event.at] else [])
  }

  /** The times of the Hellos among the frames the parser sends. */
  function ParserHelloTimes(st: Iface, rounds: seq<Round>): seq<nat> {
    if rounds == [] then []
    else
      var n := |rounds| - 1;
      ParserHelloTimes(st, rounds[..n]) + RoundHelloTimes(Machine.Run(Respond, st, FramesOf(rounds[..n])), rounds[n])
  }

  function RoundHelloTimes(st: Iface, r: Round): seq<nat> {
    if r.event.Received? then seq(|OnlyHellos(Respond(st, Input(r.event.frame, r.env)).1)|, _ => r.event.at) else []
  }

  /** They are all the Hellos of the run's output. */
  lemma {:induction false} ParserHellosAreSent(st: Iface, rounds: seq<Round>)
    ensures |ParserHelloTimes(st, rounds)| == |OnlyHellos(Sent(Respond, st, FramesOf(rounds)))|
  {
    if rounds != [] {
      var n := |rounds| - 1;
      ParserHellosAreSent(st, rounds[..n]);
      var c, r := FramesOf(rounds[..n]), rounds[n];
      if r.event.Received? {
        var x := Input(r.event.frame, r.env);
        RunSnoc(Respond, st, c, x);
        OnlyHellosAppend(Sent(Respond, st, c), Respond(Machine.Run(Respond, st, c), x).1);
      } else {
        assert c + [] == c;
      }
    }
  }

  lemma RoundAnswers(st: Iface, r: Round)
    ensures RoundHelloTimes(st, r) == if AcceptsDiscover(st, r) then [r.event.at] else []
  {
    if r.event.Received? {
      StepHello(st, Input(r.event.frame, r.env));
    }
  }

  /** The parser sends one Hello at each Discover it accepts, and no other. */
  lemma {:induction false} ParserAnswersDiscovers(st: Iface, rounds: seq<Round>)
    ensures ParserHelloTimes(st, rounds) == AcceptedTimes(st, rounds)
  {
    if rounds != [] {
      var n := |rounds| - 1;
      ParserAnswersDiscovers(st, rounds[..n]);
      RoundAnswers(Machine.Run(Respond, st, FramesOf(rounds[..n])), rounds[n]);
    }
  }

  // ----- both sources ---------------------------------------------------------------------------

  function CountIn(times: seq<nat>, from: nat, length: nat): nat {
    if times == [] then 0
    else CountIn(times[..|times| - 1], from, length) + (if from <= times[|times| - 1] <= from + length then 1 else 0)
  }

  /**
   * In any window of T ms a new interface sends, from tick and parser together, at most one Hello for each full
   * second, one more, and one for each Discover the parser accepts in it.
   */
  lemma HellosInWindow(t: nat, rounds: seq<Round>, mac: Mac, from: nat, length: nat)
    requires Timed(t, EventsOf(rounds))
    ensures CountWithin(Hellos(Initial(t), t, EventsOf(rounds), mac), from, length)
            + CountIn(ParserHelloTimes(FRESH, rounds), from, length)
         <= length / 1000 + 1 + CountIn(AcceptedTimes(FRESH, rounds), from, length)
  {
    HelloWindow(t, EventsOf(rounds), mac, from, length);
    ParserAnswersDiscovers(FRESH, rounds);
  }
}
