/** From the producer to the client: keep-alive pings cannot be seen by a client that follows the standard. */
module PingInvisibility {
  import opened Wrappers
  import opened EventStream
  import opened Sse
  import opened SseRoundTrip
  import opened PingProducer

  /** `ping_event`: an event with the comment "ping" and nothing else. */
  const PING: Fields := Fields(Some([112, 105, 110, 103]), None, None, None, None)

  /** What the producer's chunks are on the wire. */
  function Sent(output: seq<Chunk<Fields>>): seq<Fields> {
    if output == [] then []
    else
      var last := output[|output| - 1];
      Sent(output[..|output| - 1]) + [if last.Ping? then PING else last.event]
  }

  /** Pings carry no identifier, no reconnection time and no data. */
  lemma {:induction false} PingsMeanNothing(output: seq<Chunk<Fields>>)
    ensures Understood(Sent(output)) == Understood(Erase(output))
  {
    if output != [] {
      var front, last := output[..|output| - 1], output[|output| - 1];
      PingsMeanNothing(front);
      var f := if last.Ping? then PING else last.event;
      assert (Sent(front) + [f])[..|Sent(front)|] == Sent(front);
      if last.Payload? {
        assert (Erase(front) + [f])[..|Erase(front)|] == Erase(front);
      } else {
        assert Erase(output) == Erase(front);
      }
      hide Normalized, KindOf, IdText;
    }
  }

  lemma {:induction false} SentIsSound(output: seq<Chunk<Fields>>)
    requires forall i :: 0 <= i < |Erase(output)| ==> Sound(Erase(output)[i])
    ensures forall i :: 0 <= i < |Sent(output)| ==> Sound(Sent(output)[i])
  {
    assert Sound(PING);
    hide Sound;
    if output != [] {
      var front, last := output[..|output| - 1], output[|output| - 1];
      var more := if last.Payload? then [last.event] else [];
      assert Erase(output) == Erase(front) + more;
      forall i | 0 <= i < |Erase(front)|
        ensures Sound(Erase(front)[i])
      {
        assert Erase(output)[i] == Erase(front)[i];
      }
      SentIsSound(front);
      if last.Payload? {
        assert Erase(output)[|Erase(front)|] == last.event;
      } else {
      }
    }
  }

  /** The bytes of any mixture of events and pings mean what the events alone mean. */
  lemma {:induction false} PingsAreComments(output: seq<Chunk<Fields>>, sep: Bytes)
    requires forall i :: 0 <= i < |Erase(output)| ==> Sound(Erase(output)[i])
    requires IsLineEnd(sep)
    ensures Receive(Stream(Sent(output), sep)) == Understood(Erase(output))
  {
    hide Sound, Receive, Stream, Understood, Sent, Erase;
    SentIsSound(output);
    StreamRoundTrip(Sent(output), sep);
    PingsMeanNothing(output);
  }

  lemma {:induction false} NoPingIsSound(source: nat -> Completion<Fields>, n: nat)
    requires forall i: nat :: source(i).Event? ==> Sound(source(i).event)
    ensures forall i :: 0 <= i < |NoPing(source, n).0| ==> Sound(NoPing(source, n).0[i])
  {
    hide Sound;
    if n > 0 {
      NoPingIsSound(source, n - 1);
    }
  }

  /**
   * End to end: for every interleaving of events and pings, a client reading the bytes sent so far
   * is in exactly the state of a client of the producer without pings: the same messages, last
   * identifiers and reconnection time.
   */
  lemma {:induction false} PingsInvisible(
    source: nat -> Completion<Fields>, actions: seq<Action>, s: State<Fields>, sep: Bytes)
    requires forall i: nat :: source(i).Event? ==> Sound(source(i).event)
    requires Reaches(source, actions, s) && IsLineEnd(sep)
    ensures var used := Used(s);
      && used >= 0
      && Receive(Stream(Sent(s.output), sep)) == Receive(Stream(NoPing(source, used).0, sep))
      && Receive(Stream(Sent(s.output), sep)) == Understood(Erase(s.output))
  {
    hide Sound, Receive, Stream, Understood, Sent;
    RunKeeps(source, actions, s);
    NoPingIsSound(source, Used(s));
    PingsAreComments(s.output, sep);
    StreamRoundTrip(Erase(s.output), sep);
  }
}
