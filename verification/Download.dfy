/** Downloading data in parts: a reader asks at an offset, and again after what it got while told there is more. */
module Download {
  import opened Protocol

  datatype Part = Part(bytes: seq<byte>, more: bool)

  /** The offset field of a request has 16 bits. */
  function Field(offset: nat): u16 { offset % 0x1_0000 }

  /** The part of the data a response should convey. */
  function PartOf(data: seq<byte>, offset: nat, payload: nat): Part {
    if |data| > offset + payload then Part(data[offset..offset + payload], true)
    else if |data| > offset then Part(data[offset..], false)
    else Part([], false)
  }

  /** What the reader has gathered, in how many requests, and whether it was told it is done. */
  datatype Fetched = Fetched(bytes: seq<byte>, requests: nat, done: bool)

  /** The reader's loop against a server: each turn is answered at the current offset. */
  function Gather<S, T>(answer: (S, u16, T) -> (S, Part), s: S, offset: nat, turns: seq<T>): Fetched
    decreases |turns|
  {
    if turns == [] then Fetched([], 0, false)
    else
      var (s', part) := answer(s, Field(offset), turns[0]);
      if !part.more then Fetched(part.bytes, 1, true)
      else
        var rest := Gather(answer, s', offset + |part.bytes|, turns[1..]);
        Fetched(part.bytes + rest.bytes, rest.requests + 1, rest.done)
  }

  /** Requests needed for size bytes at the given payload. */
  function Requests(size: nat, payload: nat): (n: nat)
    requires payload > 0
    ensures n >= 1
  {
    if size <= payload then 1 else 1 + Requests(size - payload, payload)
  }

  /** That is the size over the payload, rounded up, and at least one. */
  lemma {:induction false} RequestsIsCeiling(size: nat, payload: nat)
    requires payload > 0
    ensures var n := Requests(size, payload); size <= n * payload && (n > 1 ==> (n - 1) * payload < size)
  {
    if size > payload {
      RequestsIsCeiling(size - payload, payload);
      var n := Requests(size - payload, payload);
      assert (n + 1) * payload == n * payload + payload;
      assert n > 1 ==> (n - 1) * payload + payload == n * payload;
    }
  }

  /** The offset of the last of n requests. */
  function LastOffset(offset: nat, n: nat, payload: nat): (r: nat)
    ensures r >= offset
    decreases n
  {
    if n <= 1 then offset else LastOffset(offset + payload, n - 1, payload)
  }

  lemma {:induction false} LastOffsetIs(offset: nat, n: nat, payload: nat)
    requires n >= 1
    ensures LastOffset(offset, n, payload) == offset + (n - 1) * payload
    decreases n
  {
    if n > 1 {
      LastOffsetIs(offset + payload, n - 1, payload);
      assert (n - 1) * payload == (n - 2) * payload + payload;
    }
  }

  /** A server of the data: from any state it is ready in, it conveys the part asked for and stays ready. */
  ghost predicate Serves<S(!new), T(!new)>(answer: (S, u16, T) -> (S, Part), ready: (S, T) -> bool, good: T -> bool,
                                           data: seq<byte>, payload: nat) {
    forall s, o: u16, t :: good(t) && ready(s, t) ==>
      && answer(s, o, t).1 == PartOf(data, o, payload)
      && forall u :: ready(answer(s, o, t).0, u)
  }

  /** The reader against the data itself, with its 16-bit offset, for some number of turns. */
  function Read(data: seq<byte>, payload: nat, offset: nat, turns: nat): Fetched
    decreases turns
  {
    if turns == 0 then Fetched([], 0, false)
    else
      var part := PartOf(data, Field(offset), payload);
      if !part.more then Fetched(part.bytes, 1, true)
      else
        var rest := Read(data, payload, offset + payload, turns - 1);
        Fetched(part.bytes + rest.bytes, rest.requests + 1, rest.done)
  }

  /** Against any server of the data, whatever its state, the reader fetches what the data alone determines. */
  lemma {:induction false} GatherIsRead<S(!new), T(!new)>(answer: (S, u16, T) -> (S, Part), ready: (S, T) -> bool, good: T -> bool,
                                               data: seq<byte>, payload: nat, s: S, offset: nat, turns: seq<T>)
    requires Serves(answer, ready, good, data, payload)
    requires forall k | 0 <= k < |turns| :: good(turns[k])
    requires turns != [] ==> ready(s, turns[0])
    ensures Gather(answer, s, offset, turns) == Read(data, payload, offset, |turns|)
    decreases |turns|
  {
    if turns != [] {
      assert answer(s, Field(offset), turns[0]).1 == PartOf(data, Field(offset), payload);
      var s' := answer(s, Field(offset), turns[0]).0;
      assert |turns| > 1 ==> ready(s', turns[1..][0]);
      GatherIsRead(answer, ready, good, data, payload, s', offset + payload, turns[1..]);
    }
  }

  lemma SplitRest(data: seq<byte>, offset: nat, payload: nat)
    requires offset + payload <= |data|
    ensures data[offset..offset + payload] + data[offset + payload..] == data[offset..]
  {
  }

  /**
   * Starting anywhere in the data, a reader of any number of turns is done exactly when it has had as many as
   * the rest takes, and then holds that rest, if the last of these offsets fits the request's 16 bits.
   */
  lemma {:induction false} ReadRest(data: seq<byte>, payload: nat, offset: nat, turns: nat)
    requires payload > 0 && (offset == 0 || offset < |data|)
    requires LastOffset(offset, Requests(|data| - offset, payload), payload) < 0x1_0000
    ensures var n := Requests(|data| - offset, payload);
            if n <= turns then Read(data, payload, offset, turns) == Fetched(data[offset..], n, true)
            else !Read(data, payload, offset, turns).done
    decreases turns
  {
    assert Field(offset) == offset;
    if |data| <= offset + payload {
      assert Requests(|data| - offset, payload) == 1;
    } else if turns > 0 {
      ReadRest(data, payload, offset + payload, turns - 1);
      SplitRest(data, offset, payload);
    }
  }

  /**
   * If the last offset does not fit, requests wrap to the front of the data: a reader that is told it is
   * done, after however many turns, holds more bytes than there are.
   */
  lemma {:induction false} ReadOverruns(data: seq<byte>, payload: nat, offset: nat, turns: nat)
    requires 0 < payload < 0x8000 && |data| > 0x1_0000
    requires offset < |data| ==> LastOffset(offset, Requests(|data| - offset, payload), payload) >= 0x1_0000
    ensures var g := Read(data, payload, offset, turns); g.done ==> offset + |g.bytes| > |data|
    decreases turns
  {
    assert Field(offset) == offset || Field(offset) + 0x1_0000 <= offset;
    if turns > 0 && |data| > Field(offset) + payload {
      ReadOverruns(data, payload, offset + payload, turns - 1);
    }
  }

  /** The n-th request from offset on, its offset cut to 16 bits, asks for the last part. */
  predicate AsksForLast(size: nat, offset: nat, payload: nat, n: nat) {
    n >= 1 && size <= Field(LastOffset(offset, n, payload)) + payload
  }

  /** A reader is told it is done exactly when one of its requests asks for the last part. */
  lemma {:induction false} ReadIsDoneIff(data: seq<byte>, payload: nat, offset: nat, turns: nat)
    ensures Read(data, payload, offset, turns).done <==> exists n: nat :: n <= turns && AsksForLast(|data|, offset, payload, n)
    decreases turns
  {
    if turns > 0 {
      if |data| <= Field(offset) + payload {
        assert AsksForLast(|data|, offset, payload, 1);
      } else {
        var next := offset + payload;
        ReadIsDoneIff(data, payload, next, turns - 1);
        if n: nat :| n <= turns && AsksForLast(|data|, offset, payload, n) {
          assert n > 1 && AsksForLast(|data|, next, payload, n - 1);
        }
        if n: nat :| n <= turns - 1 && AsksForLast(|data|, next, payload, n) {
          assert AsksForLast(|data|, offset, payload, n + 1);
        }
      }
    }
  }

  /**
   * A reader of any number of turns ends with exactly the data if and only if it has the max(1, ceil(size /
   * payload)) turns that takes and the last of these starts below 65536, as for data of at most 65536 bytes;
   * otherwise it is not done, or holds more bytes than there are.
   */
  lemma ReassemblesIff(data: seq<byte>, payload: nat, turns: nat)
    requires 0 < payload < 0x8000
    ensures var n, g := Requests(|data|, payload), Read(data, payload, 0, turns);
            && (g.done && g.bytes == data <==> n <= turns && (n - 1) * payload < 0x1_0000)
            && (g.done && g.bytes == data ==> g.requests == n)
            && (g.done && g.bytes != data ==> |g.bytes| > |data|)
    ensures var n := Requests(|data|, payload);
            && (|data| <= 0x1_0000 ==> (n - 1) * payload < 0x1_0000)
            && |data| <= n * payload && (n > 1 ==> (n - 1) * payload < |data|)
  {
    var n := Requests(|data|, payload);
    RequestsIsCeiling(|data|, payload);
    LastOffsetIs(0, n, payload);
    if LastOffset(0, n, payload) < 0x1_0000 {
      ReadRest(data, payload, 0, turns);
      assert data[0..] == data;
    } else {
      ReadOverruns(data, payload, 0, turns);
    }
  }

  /** It can be told it is done with too many bytes: 90001 bytes in parts of 30000 end after 14 requests. */
  lemma WrappedReaderEnds(data: seq<byte>)
    requires |data| == 90001
    ensures (Requests(|data|, 30000) - 1) * 30000 >= 0x1_0000
    ensures Read(data, 30000, 0, 14).done && |Read(data, 30000, 0, 14).bytes| > |data|
  {
    assert Requests(1, 30000) == 1 && Requests(30001, 30000) == 2 && Requests(60001, 30000) == 3 && Requests(90001, 30000) == 4;
    assert Field(LastOffset(0, 14, 30000)) == 62320 by { LastOffsetIs(0, 14, 30000); }
    assert AsksForLast(90001, 0, 30000, 14);
    ReadIsDoneIff(data, 30000, 0, 14);
    LastOffsetIs(0, 4, 30000);
    ReadOverruns(data, 30000, 0, 14);
  }
}
