/** Polling: PollRelays, PollMessages and parsePollRecord of
    go/internal/client/dns_engine.go. What each relay answers is a parameter. */
module Engine {
  import opened Bytes
  import opened Chunks
  import opened DnsClient
  import Base32Hex
  import Relay
  import Store
  import Text

  datatype Polled = Polled(msgID: MsgId, data: seq<byte>, timestamp: int64, sequence: uint64)

  // ----- poll records -----

  function Word(s: Option<seq<byte>>): uint64 {
    if s.Some? && |s.value| == 8 then Uint64(s.value) else 0
  }

  /** parsePollRecord; None is its nil. */
  function ParsePollRecord(record: string): Option<Polled> {
    var parts := Text.SplitN(record, ':', 3);
    var id := Base32Hex.Decode(parts[0]);
    if id.None? || |id.value| != 8 then None
    else if |parts| < 3 then Some(Polled(id.value, [], 0, 0))
    else Some(Polled(id.value, [], ToInt64(Word(Base32Hex.Decode(parts[1]))), Word(Base32Hex.Decode(parts[2]))))
  }

  lemma NoColon(s: seq<byte>)
    ensures ':' !in Base32Hex.Encode(s)
  {
    Base32Hex.EncodeShape(s);
  }

  lemma ExtendedRecordParts(id: MsgId, timestamp: nat, sequence: uint64)
    ensures Text.SplitN(Relay.ExtendedRecord(id, timestamp, sequence), ':', 3) ==
            [Base32Hex.Encode(id), Base32Hex.Encode(BigEndian(timestamp, 8)), Base32Hex.Encode(BigEndian(sequence, 8))]
  {
    NoColon(id);
    NoColon(BigEndian(timestamp, 8));
    NoColon(BigEndian(sequence, 8));
    var parts := [Base32Hex.Encode(id), Base32Hex.Encode(BigEndian(timestamp, 8)), Base32Hex.Encode(BigEndian(sequence, 8))];
    Text.SplitNJoin(parts, ':', 3);
  }

  /** The client reads the message ID and, for a time that fits an int64, the metadata. */
  lemma ExtendedRecordRoundTrip(id: MsgId, timestamp: nat, sequence: uint64)
    ensures var m := ParsePollRecord(Relay.ExtendedRecord(id, timestamp, sequence));
            && m.Some? && m.value.msgID == id && m.value.sequence == sequence
            && (timestamp < 0x8000_0000_0000_0000 ==> m.value == Polled(id, [], timestamp, sequence))
  {
    ExtendedRecordParts(id, timestamp, sequence);
    Base32Hex.RoundTrip(id);
    Base32Hex.RoundTrip(BigEndian(timestamp, 8));
    Base32Hex.RoundTrip(BigEndian(sequence, 8));
    if timestamp < 0x8000_0000_0000_0000 { Uint64RoundTrip(timestamp); }
    Uint64RoundTrip(sequence);
  }

  /** The client reads from a relay's record the message ID and the metadata stamped on it. */
  lemma PollRecordRoundTrip(s: Store.StoreState, id: MsgId)
    ensures var m := ParsePollRecord(Relay.PollRecord(s, id));
            && m.Some? && m.value.msgID == id
            && (id in s.messages && 0 < s.messages[id].timestamp < 0x8000_0000_0000_0000 ==>
                  m.value == Polled(id, [], s.messages[id].timestamp, s.messages[id].sequence))
            && (id !in s.messages || s.messages[id].timestamp <= 0 ==> m.value == Polled(id, [], 0, 0))
  {
    if id in s.messages && s.messages[id].timestamp > 0 {
      ExtendedRecordRoundTrip(id, s.messages[id].timestamp, s.messages[id].sequence);
    } else {
      NoColon(id);
      Text.SplitNone(Base32Hex.Encode(id), ':', 3);
      Base32Hex.RoundTrip(id);
    }
  }

  /** What parsePollResponseWithMeta reads from a reply's records. */
  function ParseResponse(records: seq<string>): seq<Polled> {
    if records == [] then [] else
      ParseResponse(records[..|records| - 1]) +
      match ParsePollRecord(records[|records| - 1]) case Some(m) => [m] case None => []
  }

  method ParsePollResponse(records: seq<string>) returns (ms: seq<Polled>)
    ensures ms == ParseResponse(records)
  {
    ms := [];
    for i := 0 to |records|
      invariant ms == ParseResponse(records[..i])
    {
      assert records[..i + 1][..i] == records[..i];
      var m := ParsePollRecord(records[i]);
      if m.Some? {
        ms := ms + [m.value];
      }
    }
    assert records[..|records|] == records;
  }

  /** The readable records, all of them and nothing else. */
  lemma {:induction false} ParsedFrom(records: seq<string>, m: Polled)
    ensures m in ParseResponse(records) <==> exists record :: record in records && ParsePollRecord(record) == Some(m)
  {
    if records != [] {
      var init, last := records[..|records| - 1], records[|records| - 1];
      ParsedFrom(init, m);
      assert forall record :: record in records <==> record in init || record == last;
    }
  }

  /** Attempt `k` is the first that a relay accepts. */
  ghost predicate FirstAccepted(mode: Transport, exchange: nat -> Option<Relay.Reply>, k: nat) {
    k < Attempts(mode) && Accepted(exchange(k)) && forall j: nat | j < k :: !Accepted(exchange(j))
  }

  function Records(reply: Relay.Reply): seq<string> { if reply.answer.Some? then reply.answer.value else [] }

  /** One relay's list: that of the first accepted attempt. None, an error, means that there is none. */
  ghost predicate IsPollResult(mode: Transport, exchange: nat -> Option<Relay.Reply>, ms: Option<seq<Polled>>) {
    && (forall k: nat | FirstAccepted(mode, exchange, k) :: ms == Some(ParseResponse(Records(exchange(k).value))))
    && (ms.None? <==> forall k: nat | k < Attempts(mode) :: !Accepted(exchange(k)))
  }

  /** The exchanges of a poll: tcp, then udp, then tcp again in automatic mode, until one is accepted. */
  method AskForList(mode: Transport, exchange: nat -> Option<Relay.Reply>) returns (reply: Option<Relay.Reply>, k: nat)
    ensures reply == exchange(k) && k < Attempts(mode)
    ensures if Accepted(reply) then FirstAccepted(mode, exchange, k)
            else forall j: nat | j < Attempts(mode) :: !Accepted(exchange(j))
    ensures !Accepted(reply) ==> k == if mode.Auto? then 2 else 0
  {
    reply, k := exchange(0), 0;
    if mode != Auto || Accepted(reply) {
      return;
    }
    reply, k := exchange(1), 1;
    if Accepted(reply) {
      return;
    }
    reply, k := exchange(2), 2;
  }

  lemma ListOfFirst(mode: Transport, exchange: nat -> Option<Relay.Reply>, k: nat, ms: Option<seq<Polled>>)
    requires FirstAccepted(mode, exchange, k) && ms == Some(ParseResponse(Records(exchange(k).value)))
    ensures IsPollResult(mode, exchange, ms)
  {
    forall j: nat | FirstAccepted(mode, exchange, j) ensures j == k { FirstIsUnique(mode, exchange, j, k); }
  }

  lemma FirstIsUnique(mode: Transport, exchange: nat -> Option<Relay.Reply>, j: nat, k: nat)
    requires FirstAccepted(mode, exchange, j) && FirstAccepted(mode, exchange, k)
    ensures j == k
  {}

  /** Which attempt can be the first accepted one. */
  lemma WhichAttemptLists(mode: Transport, exchange: nat -> Option<Relay.Reply>, k: nat)
    ensures FirstAccepted(mode, exchange, k) <==>
              || (k == 0 && Accepted(exchange(0)))
              || (k == 1 && mode == Auto && !Accepted(exchange(0)) && Accepted(exchange(1)))
              || (k == 2 && mode == Auto && !Accepted(exchange(0)) && !Accepted(exchange(1)) && Accepted(exchange(2)))
  {}

  /** A poll gives a list exactly when one of its exchanges is accepted: one, or three in automatic mode. */
  lemma PollAnswersWhen(mode: Transport, exchange: nat -> Option<Relay.Reply>, ms: Option<seq<Polled>>)
    requires IsPollResult(mode, exchange, ms)
    ensures ms.Some? <==>
              || Accepted(exchange(0))
              || (mode == Auto && (Accepted(exchange(1)) || Accepted(exchange(2))))
  {
    if ms.Some? {
      var k: nat :| k < Attempts(mode) && Accepted(exchange(k));
      assert k == 0 || (mode == Auto && (k == 1 || k == 2));
    }
  }

  method PollRelay(mode: Transport, exchange: nat -> Option<Relay.Reply>) returns (ms: Option<seq<Polled>>)
    ensures IsPollResult(mode, exchange, ms)
    ensures ms.Some? ==> exists k: nat :: exchange(k).Some? && exchange(k).value.rcode == Relay.Success
  {
    var reply, k := AskForList(mode, exchange);
    if !Accepted(reply) {
      return None;
    }
    var parsed := ParsePollResponse(Records(reply.value));
    ms := Some(parsed);
    ListOfFirst(mode, exchange, k, ms);
  }

  // ----- the union over relays -----

  function Ids(ms: seq<Polled>): set<MsgId> {
    if ms == [] then {} else Ids(ms[..|ms| - 1]) + {ms[|ms| - 1].msgID}
  }

  /** No ID occurs twice. */
  predicate Once(ms: seq<Polled>) {
    ms == [] || (Once(ms[..|ms| - 1]) && ms[|ms| - 1].msgID !in Ids(ms[..|ms| - 1]))
  }

  lemma Snoc(ms: seq<Polled>, m: Polled)
    ensures (ms + [m])[..|ms|] == ms
    ensures Ids(ms + [m]) == Ids(ms) + {m.msgID}
    ensures Once(ms + [m]) <==> Once(ms) && m.msgID !in Ids(ms)
  {
    assert (ms + [m])[..|ms|] == ms;
  }

  lemma {:induction false} IdsAre(ms: seq<Polled>, id: MsgId)
    ensures id in Ids(ms) <==> exists m :: m in ms && m.msgID == id
  {
    if ms != [] {
      var init, last := ms[..|ms| - 1], ms[|ms| - 1];
      IdsAre(init, id);
      assert forall m :: m in ms <==> m in init || m == last;
    }
  }

  /** `ms` without the entries whose ID occurred before. */
  function FirstOnly(ms: seq<Polled>): seq<Polled> {
    if ms == [] then [] else AddFirst(FirstOnly(ms[..|ms| - 1]), ms[|ms| - 1])
  }

  function AddFirst(seen: seq<Polled>, m: Polled): seq<Polled> {
    if m.msgID in Ids(seen) then seen else seen + [m]
  }

  /** Everything that the responding relays list, in relay order. */
  function Listed(responses: seq<Option<seq<Polled>>>): seq<Polled> {
    if responses == [] then [] else
      Listed(responses[..|responses| - 1]) + Entries(responses[|responses| - 1])
  }

  method PollRelays(recipientPubkey: string, responses: seq<Option<seq<Polled>>>) returns (all: seq<Polled>)
    ensures all == if recipientPubkey == "" then [] else FirstOnly(Listed(responses))
  {
    if recipientPubkey == "" {
      return [];
    }
    all := [];
    var seen: set<MsgId> := {};
    for r := 0 to |responses|
      invariant all == FirstOnly(Listed(responses[..r])) && seen == Ids(all)
    {
      assert responses[..r + 1][..r] == responses[..r];
      if responses[r].Some? {
        FirstOnlyConcat(Listed(responses[..r]), responses[r].value);
        all, seen := AddNew(all, seen, responses[r].value);
      } else {
        assert Listed(responses[..r + 1]) == Listed(responses[..r]);
      }
    }
    assert responses[..|responses|] == responses;
  }

  function AddAll(seen: seq<Polled>, ms: seq<Polled>): seq<Polled> {
    if ms == [] then seen else AddFirst(AddAll(seen, ms[..|ms| - 1]), ms[|ms| - 1])
  }

  lemma {:induction false} FirstOnlyConcat(xs: seq<Polled>, ms: seq<Polled>)
    ensures FirstOnly(xs + ms) == AddAll(FirstOnly(xs), ms)
  {
    if ms == [] {
      assert xs + ms == xs;
    } else {
      assert (xs + ms)[..|xs + ms| - 1] == xs + ms[..|ms| - 1];
      FirstOnlyConcat(xs, ms[..|ms| - 1]);
    }
  }

  /** The inner loop: one relay's list. */
  method AddNew(all: seq<Polled>, seen: set<MsgId>, ms: seq<Polled>) returns (all': seq<Polled>, seen': set<MsgId>)
    requires seen == Ids(all)
    ensures all' == AddAll(all, ms) && seen' == Ids(all')
  {
    all', seen' := all, seen;
    for i := 0 to |ms|
      invariant all' == AddAll(all, ms[..i]) && seen' == Ids(all')
    {
      assert ms[..i + 1][..i] == ms[..i];
      all', seen' := AddOne(all', seen', ms[i]);
    }
    assert ms[..|ms|] == ms;
  }

  method AddOne(all: seq<Polled>, seen: set<MsgId>, m: Polled) returns (all': seq<Polled>, seen': set<MsgId>)
    requires seen == Ids(all)
    ensures all' == AddFirst(all, m) && seen' == Ids(all')
  {
    all', seen' := all, seen;
    if m.msgID !in seen {
      Snoc(all, m);
      seen' := seen + {m.msgID};
      all' := all + [m];
    }
  }

  lemma {:induction false} FirstOnlyUnion(ms: seq<Polled>)
    ensures Once(FirstOnly(ms)) && Ids(FirstOnly(ms)) == Ids(ms)
  {
    if ms != [] {
      FirstOnlyUnion(ms[..|ms| - 1]);
      Snoc(FirstOnly(ms[..|ms| - 1]), ms[|ms| - 1]);
    }
  }

  /** Entry `i` is the earliest with its ID. */
  ghost predicate Earliest(ms: seq<Polled>, i: nat) {
    i < |ms| && forall j: nat | j < i :: ms[j].msgID != ms[i].msgID
  }

  lemma {:induction false} EarliestKept(ms: seq<Polled>, i: nat)
    requires Earliest(ms, i)
    ensures ms[i] in FirstOnly(ms)
  {
    var n := |ms| - 1;
    if i < n {
      EarliestInit(ms, i);
      EarliestKept(ms[..n], i);
    } else {
      NewIsEarliest(ms);
      FirstOnlyUnion(ms[..n]);
    }
  }

  lemma NewIsEarliest(ms: seq<Polled>)
    requires ms != []
    ensures Earliest(ms, |ms| - 1) <==> ms[|ms| - 1].msgID !in Ids(ms[..|ms| - 1])
  {
    IdsAt(ms[..|ms| - 1], ms[|ms| - 1].msgID);
  }

  lemma {:induction false} KeptIsEarliest(ms: seq<Polled>, m: Polled) returns (i: nat)
    requires m in FirstOnly(ms)
    ensures Earliest(ms, i) && ms[i] == m
  {
    var n := |ms| - 1;
    if m in FirstOnly(ms[..n]) {
      i := KeptIsEarliest(ms[..n], m);
      EarliestInit(ms, i);
    } else {
      i := n;
      FirstOnlyUnion(ms[..n]);
      NewIsEarliest(ms);
    }
  }

  /** The kept entries are exactly the earliest ones, so the relay that is asked first decides what is
      reported about a message. */
  lemma KeepsEarliest(ms: seq<Polled>, m: Polled)
    ensures m in FirstOnly(ms) <==> exists i: nat :: Earliest(ms, i) && ms[i] == m
  {
    if m in FirstOnly(ms) { var i := KeptIsEarliest(ms, m); }
    if i: nat :| Earliest(ms, i) && ms[i] == m { EarliestKept(ms, i); }
  }

  lemma EarliestInit(ms: seq<Polled>, i: nat)
    requires i < |ms| - 1
    ensures Earliest(ms[..|ms| - 1], i) <==> Earliest(ms, i)
  {
    var init := ms[..|ms| - 1];
    assert forall j: nat | j <= i :: init[j] == ms[j];
  }

  lemma IdsAt(ms: seq<Polled>, id: MsgId)
    ensures id in Ids(ms) <==> exists j: nat :: j < |ms| && ms[j].msgID == id
  {
    IdsAre(ms, id);
    if m :| m in ms && m.msgID == id {
      var j :| 0 <= j < |ms| && ms[j] == m;
    }
  }

  /** `xs` is what is left of `ys` when some entries are dropped. */
  ghost predicate Subsequence(xs: seq<Polled>, ys: seq<Polled>) {
    xs == [] || (ys != [] &&
      ((xs[|xs| - 1] == ys[|ys| - 1] && Subsequence(xs[..|xs| - 1], ys[..|ys| - 1])) || Subsequence(xs, ys[..|ys| - 1])))
  }

  lemma SubsequenceGrows(xs: seq<Polled>, ys: seq<Polled>, y: Polled)
    requires Subsequence(xs, ys)
    ensures Subsequence(xs, ys + [y]) && Subsequence(xs + [y], ys + [y])
  {
    assert (ys + [y])[..|ys|] == ys && (xs + [y])[..|xs|] == xs;
  }

  /** The entries stay in the order of the relays and of their lists. */
  lemma {:induction false} KeepsOrder(ms: seq<Polled>)
    ensures Subsequence(FirstOnly(ms), ms)
  {
    if ms != [] {
      var init, last := ms[..|ms| - 1], ms[|ms| - 1];
      KeepsOrder(init);
      SubsequenceGrows(FirstOnly(init), init, last);
      assert ms == init + [last];
    }
  }

  ghost predicate ListedBy(responses: seq<Option<seq<Polled>>>, r: nat, id: MsgId) {
    r < |responses| && responses[r].Some? && id in Ids(responses[r].value)
  }

  lemma {:induction false} IdsConcat(xs: seq<Polled>, ys: seq<Polled>)
    ensures Ids(xs + ys) == Ids(xs) + Ids(ys)
  {
    if ys == [] {
      assert xs + ys == xs;
    } else {
      assert (xs + ys)[..|xs + ys| - 1] == xs + ys[..|ys| - 1];
      IdsConcat(xs, ys[..|ys| - 1]);
    }
  }

  function Entries(response: Option<seq<Polled>>): seq<Polled> {
    match response case Some(ms) => ms case None => []
  }

  lemma {:induction false} ListedHas(responses: seq<Option<seq<Polled>>>, r: nat, id: MsgId)
    requires ListedBy(responses, r, id)
    ensures id in Ids(Listed(responses))
  {
    var n := |responses| - 1;
    IdsConcat(Listed(responses[..n]), Entries(responses[n]));
    if r < n { ListedHas(responses[..n], r, id); }
  }

  lemma {:induction false} ListerOf(responses: seq<Option<seq<Polled>>>, id: MsgId) returns (r: nat)
    requires id in Ids(Listed(responses))
    ensures ListedBy(responses, r, id)
  {
    var n := |responses| - 1;
    IdsConcat(Listed(responses[..n]), Entries(responses[n]));
    if id in Ids(Listed(responses[..n])) {
      r := ListerOf(responses[..n], id);
    } else {
      r := n;
    }
  }

  lemma ListedIds(responses: seq<Option<seq<Polled>>>, id: MsgId)
    ensures id in Ids(Listed(responses)) <==> exists r: nat :: ListedBy(responses, r, id)
  {
    if id in Ids(Listed(responses)) {
      var r := ListerOf(responses, id);
    }
    if r: nat :| ListedBy(responses, r, id) {
      ListedHas(responses, r, id);
    }
  }

  /** A poll considers exactly the duplicate-free union of what the responding relays list. */
  lemma PollIsUnion(responses: seq<Option<seq<Polled>>>, id: MsgId)
    ensures Once(FirstOnly(Listed(responses)))
    ensures id in Ids(FirstOnly(Listed(responses))) <==> exists r: nat :: ListedBy(responses, r, id)
  {
    FirstOnlyUnion(Listed(responses));
    ListedIds(responses, id);
  }

  /** Each entry that a poll considers stands in the list of some responding relay. */
  lemma EntryFrom(responses: seq<Option<seq<Polled>>>, m: Polled) returns (r: nat)
    requires m in FirstOnly(Listed(responses))
    ensures r < |responses| && responses[r].Some? && m in responses[r].value
  {
    FirstOnlyFrom(Listed(responses), m);
    r := ListedFrom(responses, m);
  }

  lemma {:induction false} FirstOnlyFrom(ms: seq<Polled>, m: Polled)
    requires m in FirstOnly(ms)
    ensures m in ms
  {
    var init, last := ms[..|ms| - 1], ms[|ms| - 1];
    if m != last { FirstOnlyFrom(init, m); }
  }

  lemma {:induction false} ListedFrom(responses: seq<Option<seq<Polled>>>, m: Polled) returns (r: nat)
    requires m in Listed(responses)
    ensures r < |responses| && responses[r].Some? && m in responses[r].value
  {
    var n := |responses| - 1;
    if m in Listed(responses[..n]) {
      r := ListedFrom(responses[..n], m);
    } else {
      r := n;
    }
  }

  // ----- fetching what is new -----

  /** What a fetch of each message from each relay yields. */
  type Fetch = (nat, MsgId) -> FetchResult

  /** Relay `r` is the first that does not answer a fetch of `id` with an error. */
  ghost predicate FirstAnswer(fetch: Fetch, relays: nat, id: MsgId, r: nat) {
    r < relays && fetch(r, id) != FetchError && forall q: nat | q < r :: fetch(q, id) == FetchError
  }

  /** What asking the relays in turn yields: the first answer that is not an error, and an error if
      there is none. */
  function FirstFetch(fetch: Fetch, relays: nat, id: MsgId): (data: FetchResult)
    ensures forall r: nat | FirstAnswer(fetch, relays, id, r) :: data == fetch(r, id)
    ensures data == FetchError <==> forall r: nat | r < relays :: fetch(r, id) == FetchError
  {
    if relays == 0 then FetchError else
      var earlier := FirstFetch(fetch, relays - 1, id);
      if earlier != FetchError then earlier else fetch(relays - 1, id)
  }

  lemma {:induction false} FirstAnswerExists(fetch: Fetch, relays: nat, id: MsgId) returns (r: nat)
    requires FirstFetch(fetch, relays, id) != FetchError
    ensures FirstAnswer(fetch, relays, id, r) && fetch(r, id) == FirstFetch(fetch, relays, id)
  {
    if FirstFetch(fetch, relays - 1, id) != FetchError {
      r := FirstAnswerExists(fetch, relays - 1, id);
    } else {
      r := relays - 1;
    }
  }

  /** The loop over relays for one message. It ends at the first relay that serves the message, and
      the whole process ends where a fetch panics. */
  method FetchFromAny(relays: nat, id: MsgId, fetch: Fetch) returns (data: FetchResult)
    ensures data == FirstFetch(fetch, relays, id)
  {
    data := FetchError;
    for r := 0 to relays
      invariant data == FetchError && FirstFetch(fetch, r, id) == FetchError
    {
      data := fetch(r, id);
      if data != FetchError {
        assert FirstAnswer(fetch, relays, id, r);
        return;
      }
    }
  }

  /** How far one poll has come: the messages fetched so far, and whether a fetch panicked. */
  datatype Progress = Progress(messages: seq<Polled>, panicked: bool)

  /** One poll over the listed messages, given what was fetched before. */
  function Delivered(fetched: set<MsgId>, ms: seq<Polled>, relays: nat, fetch: Fetch): Progress {
    if ms == [] then Progress([], false)
    else AddFetched(fetched, Delivered(fetched, ms[..|ms| - 1], relays, fetch), ms[|ms| - 1],
                    FirstFetch(fetch, relays, ms[|ms| - 1].msgID))
  }

  function AddFetched(fetched: set<MsgId>, sofar: Progress, m: Polled, data: FetchResult): Progress {
    if sofar.panicked || m.msgID in fetched + Ids(sofar.messages) then sofar
    else match data
      case Fetched(bytes) => Progress(sofar.messages + [m.(data := bytes)], false)
      case FetchError => sofar
      case Panics => Progress(sofar.messages, true)
  }

  lemma DeliveredSnoc(fetched: set<MsgId>, ms: seq<Polled>, m: Polled, relays: nat, fetch: Fetch)
    ensures Delivered(fetched, ms + [m], relays, fetch) ==
            AddFetched(fetched, Delivered(fetched, ms, relays, fetch), m, FirstFetch(fetch, relays, m.msgID))
  {
    assert (ms + [m])[..|ms|] == ms;
  }

  class Client {
    var fetched: set<MsgId>

    constructor ()
      ensures fetched == {}
    {
      fetched := {};
    }

    /** If a fetch panics, the call returns nothing and `result` tells how far it came. */
    method PollMessages(recipientPubkey: string, responses: seq<Option<seq<Polled>>>, fetch: Fetch) returns (result: Progress)
      modifies this
      ensures var polled := if recipientPubkey == "" then [] else FirstOnly(Listed(responses));
              result == Delivered(old(fetched), polled, |responses|, fetch)
      ensures fetched == old(fetched) + Ids(result.messages)
    {
      var polled := PollRelays(recipientPubkey, responses);
      result := FetchListed(polled, |responses|, fetch);
    }

    method FetchListed(polled: seq<Polled>, relays: nat, fetch: Fetch) returns (result: Progress)
      modifies this
      ensures result == Delivered(old(fetched), polled, relays, fetch)
      ensures fetched == old(fetched) + Ids(result.messages)
    {
      result := Progress([], false);
      for k := 0 to |polled|
        invariant result == Delivered(old(fetched), polled[..k], relays, fetch)
        invariant fetched == old(fetched) + Ids(result.messages)
      {
        assert polled[..k + 1] == polled[..k] + [polled[k]];
        DeliveredSnoc(old(fetched), polled[..k], polled[k], relays, fetch);
        result := TryFetch(result, polled[k], relays, fetch, old(fetched));
      }
      assert polled[..|polled|] == polled;
    }

    /** The loop body: skip what was fetched, otherwise ask the relays in turn. After a panic nothing
        happens any more. */
    method TryFetch(sofar: Progress, m: Polled, relays: nat, fetch: Fetch, ghost before: set<MsgId>) returns (result: Progress)
      requires fetched == before + Ids(sofar.messages)
      modifies this
      ensures result == AddFetched(before, sofar, m, FirstFetch(fetch, relays, m.msgID))
      ensures fetched == before + Ids(result.messages)
    {
      result := sofar;
      if !sofar.panicked && m.msgID !in fetched {
        var data := FetchFromAny(relays, m.msgID, fetch);
        match data {
          case FetchError =>
          case Panics => result := Progress(sofar.messages, true);
          case Fetched(bytes) =>
            fetched := fetched + {m.msgID};
            Snoc(sofar.messages, m.(data := bytes));
            result := Progress(sofar.messages + [m.(data := bytes)], false);
        }
      }
    }
  }

  /** Only listed messages that were not fetched before are handed over, each once. */
  lemma {:induction false} DeliveredOnce(fetched: set<MsgId>, ms: seq<Polled>, relays: nat, fetch: Fetch, id: MsgId)
    ensures var d := Delivered(fetched, ms, relays, fetch).messages;
            && Once(d)
            && (id in Ids(d) ==> id !in fetched && id in Ids(ms) && FirstFetch(fetch, relays, id).Fetched?)
  {
    if ms != [] {
      var init, m := ms[..|ms| - 1], ms[|ms| - 1];
      DeliveredOnce(fetched, init, relays, fetch, id);
      var sofar, data := Delivered(fetched, init, relays, fetch), FirstFetch(fetch, relays, m.msgID);
      if data.Fetched? { Snoc(sofar.messages, m.(data := data.data)); }
    }
  }

  /** A listed message, not fetched yet, for which asking the relays in turn ends in a panic. */
  ghost predicate Fatal(fetched: set<MsgId>, ms: seq<Polled>, relays: nat, fetch: Fetch, id: MsgId) {
    id in Ids(ms) && id !in fetched && FirstFetch(fetch, relays, id) == Panics
  }

  lemma {:induction false} PanicsExactly(fetched: set<MsgId>, ms: seq<Polled>, relays: nat, fetch: Fetch)
    ensures Delivered(fetched, ms, relays, fetch).panicked <==> exists id :: Fatal(fetched, ms, relays, fetch, id)
  {
    if ms != [] {
      var init, m := ms[..|ms| - 1], ms[|ms| - 1];
      PanicsExactly(fetched, init, relays, fetch);
      if id :| Fatal(fetched, init, relays, fetch, id) {
        assert Fatal(fetched, ms, relays, fetch, id);
      } else {
        DeliveredOnce(fetched, init, relays, fetch, m.msgID);
        assert Delivered(fetched, ms, relays, fetch).panicked <==> Fatal(fetched, ms, relays, fetch, m.msgID);
        assert forall id | Fatal(fetched, ms, relays, fetch, id) ::
          id == m.msgID || Fatal(fetched, init, relays, fetch, id);
      }
    }
  }

  /** A poll that does not panic hands over exactly the listed, not yet fetched messages that some
      relay serves, each once. */
  lemma {:induction false} DeliveredExactly(fetched: set<MsgId>, ms: seq<Polled>, relays: nat, fetch: Fetch, id: MsgId)
    ensures var d := Delivered(fetched, ms, relays, fetch);
            && Once(d.messages)
            && (!d.panicked ==>
                  (id in Ids(d.messages) <==> id !in fetched && id in Ids(ms) && FirstFetch(fetch, relays, id).Fetched?))
  {
    DeliveredOnce(fetched, ms, relays, fetch, id);
    if ms != [] {
      var init, m := ms[..|ms| - 1], ms[|ms| - 1];
      DeliveredExactly(fetched, init, relays, fetch, id);
      var sofar, data := Delivered(fetched, init, relays, fetch), FirstFetch(fetch, relays, m.msgID);
      if data.Fetched? { Snoc(sofar.messages, m.(data := data.data)); }
    }
  }

  /** What is handed over is a listed record with the data of the first relay that serves it. */
  lemma {:induction false} DeliveredContents(fetched: set<MsgId>, ms: seq<Polled>, relays: nat, fetch: Fetch, m: Polled)
    requires m in Delivered(fetched, ms, relays, fetch).messages
    ensures FirstFetch(fetch, relays, m.msgID) == Fetched(m.data)
    ensures exists record :: record in ms && m == record.(data := m.data)
  {
    var init, last := ms[..|ms| - 1], ms[|ms| - 1];
    var sofar := Delivered(fetched, init, relays, fetch).messages;
    if m in sofar {
      DeliveredContents(fetched, init, relays, fetch, m);
    } else {
      assert m == last.(data := m.data);
    }
  }

  /** One poll that does not panic, given what was fetched before. */
  lemma OnePollIsComplete(fetched: set<MsgId>, responses: seq<Option<seq<Polled>>>, fetch: Fetch, id: MsgId)
    requires !Delivered(fetched, FirstOnly(Listed(responses)), |responses|, fetch).panicked
    ensures id in Ids(Delivered(fetched, FirstOnly(Listed(responses)), |responses|, fetch).messages) <==>
            && (exists r: nat :: ListedBy(responses, r, id))
            && (exists r: nat :: r < |responses| && fetch(r, id).Fetched?)
            && id !in fetched
  {
    var ms := FirstOnly(Listed(responses));
    PollIsUnion(responses, id);
    PanicsExactly(fetched, ms, |responses|, fetch);
    assert !Fatal(fetched, ms, |responses|, fetch, id);
    DeliveredExactly(fetched, ms, |responses|, fetch, id);
    if FirstFetch(fetch, |responses|, id).Fetched? {
      var r := FirstAnswerExists(fetch, |responses|, id);
    }
  }

  /** Without panicking fetches no poll panics. */
  lemma NoFatalFetch(fetched: set<MsgId>, ms: seq<Polled>, relays: nat, fetch: Fetch)
    requires forall r: nat, id | r < relays :: fetch(r, id) != Panics
    ensures !Delivered(fetched, ms, relays, fetch).panicked
  {
    PanicsExactly(fetched, ms, relays, fetch);
    forall id ensures FirstFetch(fetch, relays, id) != Panics {
      if FirstFetch(fetch, relays, id) != FetchError {
        var r := FirstAnswerExists(fetch, relays, id);
      }
    }
  }

  /** The records of the messages handed over, without their data. */
  function Headers(ms: seq<Polled>): (hs: seq<Polled>)
    ensures |hs| == |ms|
  {
    if ms == [] then [] else Headers(ms[..|ms| - 1]) + [ms[|ms| - 1].(data := [])]
  }

  lemma HeadersSnoc(ms: seq<Polled>, m: Polled)
    ensures Headers(ms + [m]) == Headers(ms) + [m.(data := [])]
  {
    assert (ms + [m])[..|ms|] == ms;
  }

  /** Messages are handed over in the order in which they are listed. */
  lemma {:induction false} DeliveredInOrder(fetched: set<MsgId>, ms: seq<Polled>, relays: nat, fetch: Fetch)
    ensures Subsequence(Headers(Delivered(fetched, ms, relays, fetch).messages), Headers(ms))
  {
    if ms != [] {
      var init, last := ms[..|ms| - 1], ms[|ms| - 1];
      DeliveredInOrder(fetched, init, relays, fetch);
      var sofar, data := Delivered(fetched, init, relays, fetch), FirstFetch(fetch, relays, last.msgID);
      SubsequenceGrows(Headers(sofar.messages), Headers(init), last.(data := []));
      if data.Fetched? { HeadersSnoc(sofar.messages, last.(data := data.data)); }
    }
  }

  // ----- any number of polls -----

  datatype Poll = Poll(responses: seq<Option<seq<Polled>>>, fetch: Fetch)

  /** How a poll ends for a client that has fetched `fetched`. */
  function PollResult(fetched: set<MsgId>, poll: Poll): Progress {
    Delivered(fetched, FirstOnly(Listed(poll.responses)), |poll.responses|, poll.fetch)
  }

  /** What a client has fetched before poll `k`, by the results of its polls so far. */
  function FetchedBefore(results: seq<Progress>, k: nat): set<MsgId>
    requires k <= |results|
  {
    if k == 0 then {} else FetchedBefore(results, k - 1) + Ids(results[k - 1].messages)
  }

  /** The results of a client's polls, one after the other, from its start. */
  ghost predicate History(polls: seq<Poll>, results: seq<Progress>) {
    && |results| == |polls|
    && forall k | 0 <= k < |polls| :: results[k] == PollResult(FetchedBefore(results, k), polls[k])
  }

  /** None of the first `k` polls panicked. A panic ends the process. */
  predicate Alive(results: seq<Progress>, k: nat)
    requires k <= |results|
  {
    forall j | 0 <= j < k :: !results[j].panicked
  }

  /** What poll `k` hands over: nothing if it panics or does not take place. */
  function Handed(results: seq<Progress>, k: nat): seq<Polled>
    requires k < |results|
  {
    if Alive(results, k + 1) then results[k].messages else []
  }

  /** The IDs that the polls before poll `k` handed over. */
  function HandedBefore(results: seq<Progress>, k: nat): set<MsgId>
    requires k <= |results|
  {
    if k == 0 then {} else HandedBefore(results, k - 1) + Ids(Handed(results, k - 1))
  }

  /** While the process lives, the fetched set holds exactly what was handed over. */
  lemma {:induction false} FetchedIsHanded(results: seq<Progress>, k: nat)
    requires k <= |results| && Alive(results, k)
    ensures FetchedBefore(results, k) == HandedBefore(results, k)
  {
    if k > 0 {
      FetchedIsHanded(results, k - 1);
      assert Handed(results, k - 1) == results[k - 1].messages;
    }
  }

  lemma {:induction false} HandedByThen(results: seq<Progress>, j: nat, k: nat)
    requires j < k <= |results|
    ensures Ids(Handed(results, j)) <= HandedBefore(results, k)
    decreases k
  {
    if j < k - 1 { HandedByThen(results, j, k - 1); }
  }

  /** Over any sequence of polls and any answers, no ID is handed over twice. */
  lemma AtMostOnce(polls: seq<Poll>, results: seq<Progress>, j: nat, k: nat, id: MsgId)
    requires History(polls, results) && j < k < |polls|
    ensures Once(Handed(results, k))
    ensures !(id in Ids(Handed(results, j)) && id in Ids(Handed(results, k)))
  {
    if Alive(results, k + 1) {
      FetchedIsHanded(results, k);
      HandedByThen(results, j, k);
      OnceOfResult(FetchedBefore(results, k), polls[k], id);
    }
  }

  lemma OnceOfResult(fetched: set<MsgId>, poll: Poll, id: MsgId)
    ensures Once(PollResult(fetched, poll).messages)
    ensures id in Ids(PollResult(fetched, poll).messages) ==> id !in fetched
  {
    DeliveredOnce(fetched, FirstOnly(Listed(poll.responses)), |poll.responses|, poll.fetch, id);
  }

  /** What each relay answers to each query for a chunk of each message. */
  type Answers = (nat, MsgId) -> (uint16 -> Option<Chunk>)

  ghost predicate FetchedFrom(poll: Poll, answers: Answers) {
    forall r: nat, id :: poll.fetch(r, id) == FetchOutcome(answers(r, id))
  }

  /** Relay `r` makes a poll panic on `id`: some responding relay lists the message, it is not yet
      fetched, all relays before `r` fail to serve it, and relay `r` answers the query for its first
      chunk with a total of 0. */
  ghost predicate PanicsOn(fetched: set<MsgId>, poll: Poll, answers: Answers, id: MsgId, r: nat) {
    && (exists q: nat :: ListedBy(poll.responses, q, id)) && id !in fetched
    && r < |poll.responses| && ClaimsNoChunks(answers(r, id))
    && forall q: nat | q < r :: FetchOutcome(answers(q, id)) == FetchError
  }

  lemma FatalIsPanicsOn(fetched: set<MsgId>, poll: Poll, answers: Answers, id: MsgId)
    requires FetchedFrom(poll, answers)
    ensures Fatal(fetched, FirstOnly(Listed(poll.responses)), |poll.responses|, poll.fetch, id)
       <==> exists r :: PanicsOn(fetched, poll, answers, id, r)
  {
    PollIsUnion(poll.responses, id);
    forall r: nat ensures poll.fetch(r, id) == Panics <==> ClaimsNoChunks(answers(r, id)) {
      PanicsWhen(answers(r, id));
    }
    if Fatal(fetched, FirstOnly(Listed(poll.responses)), |poll.responses|, poll.fetch, id) {
      var r := FirstAnswerExists(poll.fetch, |poll.responses|, id);
      assert PanicsOn(fetched, poll, answers, id, r);
    }
    if r :| PanicsOn(fetched, poll, answers, id, r) {
      assert FirstAnswer(poll.fetch, |poll.responses|, id, r);
    }
  }

  lemma ResultPanics(fetched: set<MsgId>, poll: Poll, answers: Answers)
    requires FetchedFrom(poll, answers)
    ensures PollResult(fetched, poll).panicked <==> exists id, r :: PanicsOn(fetched, poll, answers, id, r)
  {
    var ms, n := FirstOnly(Listed(poll.responses)), |poll.responses|;
    PanicsExactly(fetched, ms, n, poll.fetch);
    if id :| Fatal(fetched, ms, n, poll.fetch, id) {
      FatalIsPanicsOn(fetched, poll, answers, id);
      var r :| PanicsOn(fetched, poll, answers, id, r);
    }
    if id, r :| PanicsOn(fetched, poll, answers, id, r) {
      FatalIsPanicsOn(fetched, poll, answers, id);
    }
  }

  /** Exactly when a poll panics: some message that no earlier poll handed over is listed, and a relay
      answers the query for its first chunk with a total of 0 while all relays before it fail. */
  lemma {:induction false} PollPanicsExactly(polls: seq<Poll>, results: seq<Progress>, k: nat, answers: Answers)
    requires History(polls, results) && k < |polls| && Alive(results, k) && FetchedFrom(polls[k], answers)
    ensures results[k].panicked <==> exists id, r :: PanicsOn(HandedBefore(results, k), polls[k], answers, id, r)
  {
    FetchedIsHanded(results, k);
    ResultPanics(FetchedBefore(results, k), polls[k], answers);
  }

  /** A message is handed over in poll `k` exactly when a responding relay lists it, some relay
      serves it, and no earlier poll handed it over, provided that no poll so far panicked. A failed
      fetch leaves it eligible. */
  lemma PollIsComplete(polls: seq<Poll>, results: seq<Progress>, k: nat, id: MsgId)
    requires History(polls, results) && k < |polls|
    ensures id in Ids(Handed(results, k)) <==>
            && Alive(results, k + 1)
            && (exists r: nat :: ListedBy(polls[k].responses, r, id))
            && (exists r: nat :: r < |polls[k].responses| && polls[k].fetch(r, id).Fetched?)
            && id !in HandedBefore(results, k)
  {
    if Alive(results, k + 1) {
      FetchedIsHanded(results, k);
      OnePollIsComplete(FetchedBefore(results, k), polls[k].responses, polls[k].fetch, id);
    }
  }

  ghost predicate NeverFatal(p: Poll) { forall r: nat, id | r < |p.responses| :: p.fetch(r, id) != Panics }

  /** Without panicking fetches the process lives through all polls. */
  lemma StaysAlive(polls: seq<Poll>, results: seq<Progress>)
    requires History(polls, results) && forall p <- polls :: NeverFatal(p)
    ensures Alive(results, |results|)
  {
    forall k | 0 <= k < |polls| ensures !results[k].panicked {
      var p := polls[k];
      assert p in polls;
      NoFatalFetch(FetchedBefore(results, k), FirstOnly(Listed(p.responses)), |p.responses|, p.fetch);
    }
  }
}
