/** ChunkStore, the object: its methods follow go/internal/store/store.go and are proved
    against the steps of module Store. */
module ChunkStores {
  import opened Bytes
  import opened Chunks
  import opened Counting
  import opened Store

  /** The order in which a map's values come out of a loop over it is any order. */
  ghost predicate Enumerates(cs: seq<Chunk>, m: map<uint16, Chunk>) {
    && Distinct(Indices(cs))
    && (forall c <- cs :: c.idx in m && m[c.idx] == c)
    && (forall k | k in m :: m[k] in cs)
  }

  lemma MinusMinus<K, V>(m: map<K, V>, a: set<K>, k: K)
    ensures (m - a) - {k} == m - (a + {k})
  {}

  class ChunkStore {
    const ttl: int
    var messages: map<MsgId, MessageBuf>
    var messageOwner: map<MsgId, string>
    var peerMessages: map<string, int>
    var sequenceCounter: SequenceCounter?

    ghost function Contents(): StoreState
      reads this, sequenceCounter
    {
      StoreState(messages, messageOwner, peerMessages,
            if sequenceCounter == null then None else Some(sequenceCounter.table))
    }

    ghost predicate Valid()
      reads this, sequenceCounter
    {
      Agreement(Contents()) && Keyed(Contents())
    }

    constructor (ttl: int)
      ensures Valid() && Contents() == StoreState(map[], map[], map[], None) && this.ttl == ttl
    {
      this.ttl := ttl;
      messages, messageOwner, peerMessages, sequenceCounter := map[], map[], map[], null;
      new;
      assert CountsOf(messageOwner) == map[];
    }

    method SetSequenceCounter(sc: SequenceCounter)
      requires Valid()
      modifies this`sequenceCounter
      ensures Valid() && sequenceCounter == sc
      ensures Contents() == old(Contents()).(counters := Some(sc.table))
    {
      sequenceCounter := sc;
    }

    method Store(chunk: Chunk, now: int, commits: bool) returns (complete: bool)
      requires Valid()
      modifies this`messages, sequenceCounter
      ensures Valid() && Contents() == StoreChunk(old(Contents()), chunk, now, commits)
      ensures complete == Full(Contents().messages[chunk.msgID])
    {
      var buf: MessageBuf;
      if chunk.msgID in messages {
        buf := messages[chunk.msgID];
      } else {
        buf := MessageBuf(map[], chunk.total, now, now / 1_000_000, 0);
        if sequenceCounter != null && |chunk.recipientHash| > 0 {
          var n, ok := sequenceCounter.Next(PeerID(chunk.recipientHash), commits);
          if ok {
            buf := buf.(sequence := n);
          }
        }
      }
      buf := buf.(chunks := buf.chunks[chunk.idx := chunk]);
      messages := messages[chunk.msgID := buf];
      complete := |buf.chunks| == buf.total;
    }

    method SetMessageOwner(msgID: MsgId, peerID: string)
      requires Valid()
      modifies this`messageOwner, this`peerMessages
      ensures Valid() && Contents() == SetOwner(old(Contents()), msgID, peerID)
    {
      SetOwnerAgrees(Contents(), msgID, peerID);
      if msgID !in messageOwner {
        messageOwner := messageOwner[msgID := peerID];
        peerMessages := peerMessages[peerID := (if peerID in peerMessages then peerMessages[peerID] else 0) + 1];
      }
    }

    method PeerMessageCount(peerID: string) returns (n: int)
      requires Valid()
      ensures n == |OwnedBy(messageOwner, peerID)|
    {
      NoneOwned(messageOwner, peerID);
      n := if peerID in peerMessages then peerMessages[peerID] else 0;
    }

    method ListPeerMessages(peerID: string) returns (ids: seq<MsgId>)
      ensures Distinct(ids) && Elems(ids) == OwnedBy(messageOwner, peerID)
    {
      ids := [];
      var todo := messageOwner.Keys;
      while todo != {}
        invariant todo <= messageOwner.Keys && Distinct(ids)
        invariant Elems(ids) == OwnedBy(messageOwner, peerID) - todo
        decreases todo
      {
        var id :| id in todo;
        todo := todo - {id};
        if messageOwner[id] == peerID {
          assert forall k | 0 <= k < |ids| :: ids[k] in Elems(ids);
          assert Elems(ids + [id]) == Elems(ids) + {id};
          ids := ids + [id];
        }
      }
    }

    method GetMessageMeta(msgID: MsgId) returns (timestamp: int, sequence: uint64, ok: bool)
      ensures ok == (msgID in messages)
      ensures ok ==> timestamp == messages[msgID].timestamp && sequence == messages[msgID].sequence
      ensures !ok ==> timestamp == 0 && sequence == 0
    {
      if msgID !in messages {
        return 0, 0, false;
      }
      return messages[msgID].timestamp, messages[msgID].sequence, true;
    }

    method GetChunk(msgID: MsgId, chunkIdx: uint16) returns (chunk: Option<Chunk>)
      ensures chunk == Lookup(Contents(), msgID, chunkIdx)
    {
      if msgID !in messages {
        return None;
      }
      var buf := messages[msgID];
      chunk := if chunkIdx in buf.chunks then Some(buf.chunks[chunkIdx]) else None;
    }

    /** None is the source's (nil, nil) for an unknown message. */
    method GetCompleteMessage(msgID: MsgId) returns (r: Option<Reassembly>)
      requires Valid()
      ensures r.Some? <==> msgID in messages
      ensures r.Some? ==> exists cs :: Enumerates(cs, messages[msgID].chunks) && r.value.ToOption() == Reassemble(cs)
    {
      if msgID !in messages {
        return None;
      }
      var buf := messages[msgID];
      var chunks := [];
      var todo := buf.chunks.Keys;
      while todo != {}
        invariant todo <= buf.chunks.Keys && Distinct(Indices(chunks))
        invariant forall c <- chunks :: c.idx in buf.chunks && c.idx !in todo && buf.chunks[c.idx] == c
        invariant forall k | k in buf.chunks && k !in todo :: buf.chunks[k] in chunks
        decreases todo
      {
        var k :| k in todo;
        todo := todo - {k};
        var c := buf.chunks[k];
        assert c.idx == k;
        assert forall i | 0 <= i < |chunks| :: chunks[i] in chunks;
        chunks := chunks + [c];
      }
      var m := ReassembleMessage(chunks);
      r := Some(m);
    }

    method Gc(now: int)
      requires Valid()
      modifies this`messages, this`messageOwner, this`peerMessages
      ensures Valid() && Contents() == Collect(old(Contents()), now, ttl)
    {
      ghost var s := Contents();
      ghost var dead: set<MsgId> := {};
      var todo := messages.Keys;
      while todo != {}
        invariant todo <= s.messages.Keys
        invariant dead == DeadIds(s, now, ttl) - todo
        invariant messages == s.messages - dead
        invariant messageOwner == s.owner - dead
        invariant peerMessages == CountsOf(messageOwner)
        decreases todo
      {
        var id :| id in todo;
        todo := todo - {id};
        assert messages[id] == s.messages[id];
        if now - messages[id].createdAt > ttl {
          MinusMinus(s.messages, dead, id);
          MinusMinus(s.owner, dead, id);
          dead := dead + {id};
          messages := messages - {id};
          DropOwner(id);
        }
      }
      assert dead == DeadIds(s, now, ttl);
      CollectKeepsIndexes(s, now, ttl);
    }

    method DropOwner(id: MsgId)
      requires peerMessages == CountsOf(messageOwner)
      modifies this`messageOwner, this`peerMessages
      ensures messageOwner == old(messageOwner) - {id} && peerMessages == CountsOf(messageOwner)
    {
      if id in messageOwner {
        var peerID := messageOwner[id];
        CountsOfRemove(messageOwner, id);
        peerMessages := peerMessages[peerID := peerMessages[peerID] - 1];
        if peerMessages[peerID] <= 0 {
          peerMessages := peerMessages - {peerID};
        }
        messageOwner := messageOwner - {id};
      } else {
        assert messageOwner - {id} == messageOwner;
      }
    }
  }
}
