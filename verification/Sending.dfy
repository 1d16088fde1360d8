/** The parallel sender joined to a relay's run: what a nil return means for the recipient. */
module Sending {
  import opened Bytes
  import opened Chunks
  import opened Delivery
  import opened DnsClient
  import opened MessageRuns
  import opened Reassembly
  import opened Relay
  import opened RelayInvariants
  import opened RelayRuns
  import Sender

  /** A relay that accepts a sender's request has stored the chunk. */
  lemma AcceptedIsStored(cfg: Config, t: RelayState, e: Event, c: Chunk, reply: Reply)
    requires WellFormed(c) && e.Request? && e.qname == Some(SendName(c, cfg.zone))
    requires IsReply(cfg, t, e, reply) && Accepted(Some(reply))
    ensures Stored(cfg, t, e) == Some(c)
  {
    SentNameIsStored(c, cfg.zone);
  }

  /** Step `k` of the run is the relay's acceptance of the request for `c`. */
  ghost predicate AcceptedAt(cfg: Config, s: RelayState, es: seq<Event>, c: Chunk, k: nat)
    requires k < |es|
  {
    es[k].Request? && es[k].qname == Some(SendName(c, cfg.zone))
    && exists reply :: IsReply(cfg, Before(cfg, s, es, k), es[k], reply) && Accepted(Some(reply))
  }

  /** Every acceptance that the sender counts is one of the first `n` steps of the relay's run. */
  ghost predicate ByRelay(cfg: Config, s: RelayState, es: seq<Event>, n: nat, cs: seq<Chunk>, accepted: set<Sender.Job>) {
    forall i: nat | i < |cs| && (i, 0) in accepted :: AcceptedBefore(cfg, s, es, n, cs[i])
  }

  ghost predicate AcceptedBefore(cfg: Config, s: RelayState, es: seq<Event>, n: nat, c: Chunk) {
    exists k: nat :: k < n && k < |es| && AcceptedAt(cfg, s, es, c, k)
  }

  lemma AcceptedIsLogged(cfg: Config, s: RelayState, es: seq<Event>, n: nat, c: Chunk)
    requires WellFormed(c) && n <= |es| && AcceptedBefore(cfg, s, es, n, c)
    ensures Some(c) in Log(cfg, s, es)[..n]
  {
    var k: nat :| k < n && k < |es| && AcceptedAt(cfg, s, es, c, k);
    AcceptedStep(cfg, s, es, c, k);
    StoredIsLogged(cfg, s, es, n, c, k);
  }

  lemma StoredIsLogged(cfg: Config, s: RelayState, es: seq<Event>, n: nat, c: Chunk, k: nat)
    requires k < n <= |es| && StoredAt(cfg, s, es, k) == Some(c)
    ensures Some(c) in Log(cfg, s, es)[..n]
  {
    assert Log(cfg, s, es)[..n][k] == Some(c);
  }

  lemma AcceptedStep(cfg: Config, s: RelayState, es: seq<Event>, c: Chunk, k: nat)
    requires WellFormed(c) && k < |es| && AcceptedAt(cfg, s, es, c, k)
    ensures StoredAt(cfg, s, es, k) == Some(c)
  {
    var reply :| IsReply(cfg, Before(cfg, s, es, k), es[k], reply) && Accepted(Some(reply));
    AcceptedIsStored(cfg, Before(cfg, s, es, k), es[k], c, reply);
  }

  /** The sender's run for this message to a single relay, in which state `k` is a nil return. */
  ghost predicate NilReturn(states: seq<Sender.State>, k: nat, cs: seq<Chunk>) {
    Sender.Run(states) && k < |states|
    && states[k].chunks == |cs| && states[k].relays == 1 && states[k].caller == Sender.Returned(true)
  }

  lemma OnlyRelay(states: seq<Sender.State>, k: nat, cs: seq<Chunk>, i: nat)
    requires NilReturn(states, k, cs) && i < |cs|
    ensures (i, 0) in states[k].accepted
  {
    Sender.NilIsExact(states, k);
    assert Sender.SomeAccepted(states[k].accepted, i);
    var r: nat :| (i, r) in states[k].accepted;
    Sender.AcceptedAreJobs(states, k);
  }

  /** A nil return of the sender to a single relay means that the relay has stored every chunk. */
  lemma NilMeansStored(states: seq<Sender.State>, k: nat, cfg: Config, s: RelayState, es: seq<Event>, n: nat,
                       cs: seq<Chunk>, id: MsgId, p: seq<byte>, hash: Hash)
    requires Sent(cs, id, p, hash) && NilReturn(states, k, cs)
    requires n <= |es| && ByRelay(cfg, s, es, n, cs, states[k].accepted)
    ensures AllStoredBy(cfg, s, es, cs, n)
  {
    forall i: nat | i < |cs| ensures Some(cs[i]) in Log(cfg, s, es)[..n] {
      OnlyRelay(states, k, cs, i);
      assert Piece(cs[i], id, i, |cs|, hash);
      AcceptedIsLogged(cfg, s, es, n, cs[i]);
    }
  }

  /** States of the run from step `n` on. */
  ghost predicate FromStep(cfg: Config, s: RelayState, es: seq<Event>, n: nat, asked: set<RelayState>) {
    forall t | t in asked :: exists k: nat :: n <= k <= |es| && t == Before(cfg, s, es, k)
  }

  lemma StoredFromThen(cfg: Config, s: RelayState, es: seq<Event>, n: nat, cs: seq<Chunk>, asked: set<RelayState>)
    requires n <= |es| && AllStoredBy(cfg, s, es, cs, n) && FromStep(cfg, s, es, n, asked)
    ensures AfterAllStored(cfg, s, es, cs, asked)
  {
    forall t | t in asked
      ensures exists k: nat :: k <= |es| && AllStoredBy(cfg, s, es, cs, k) && t == Before(cfg, s, es, k)
    {
      var k: nat :| n <= k <= |es| && t == Before(cfg, s, es, k);
      StoredLater(cfg, s, es, n, k, cs);
    }
  }

  lemma StoredLater(cfg: Config, s: RelayState, es: seq<Event>, n: nat, k: nat, cs: seq<Chunk>)
    requires n <= k <= |es| && AllStoredBy(cfg, s, es, cs, n)
    ensures AllStoredBy(cfg, s, es, cs, k)
  {
    var log := Log(cfg, s, es);
    assert log[..n] == log[..k][..n];
  }

  /** From sender to recipient. The parallel sender returned nil after sending a message to one relay. From
      then on, until the message expires, a fetch from that relay of which every query is let through at
      least once returns exactly the payload. */
  lemma NilMeansDelivered(states: seq<Sender.State>, k: nat, cfg: Config, s: RelayState, es: seq<Event>, n: nat,
                          cs: seq<Chunk>, id: MsgId, p: seq<byte>, hash: Hash,
                          asked: set<RelayState>, mode: Transport, exchanges: uint16 -> (nat -> Option<Reply>))
    requires NilReturn(states, k, cs) && n <= |es| && ByRelay(cfg, s, es, n, cs, states[k].accepted)
    requires Good(s.store) && Setting(cfg, s, es, cs, id, p, hash) && FromStep(cfg, s, es, n, asked)
    requires AllFromRelay(cfg, asked, id, exchanges) && EveryQueryLetThrough(cfg, asked, mode, id, exchanges, |cs|)
    ensures FetchOutcome(Answered(mode, cfg.zone, exchanges)) == Fetched(p)
  {
    NilMeansStored(states, k, cfg, s, es, n, cs, id, p, hash);
    StoredFromThen(cfg, s, es, n, cs, asked);
    EndToEnd(cfg, s, es, cs, id, p, hash, asked, mode, exchanges);
  }
}
