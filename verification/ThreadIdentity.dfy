/** Thread ids: a peer key, a session suffix behind `#`, and the ids of worker children. */
module ThreadIdentity {
  import opened Options
  import opened Text
  import StableHash

  const SEPARATOR := '#'

  datatype Parts = Parts(peerId: string, sessionId: string)

  function Parse(threadId: string): Option<Parts> {
    var i := IndexOf(threadId, SEPARATOR);
    // Without a separator `indexOf` is -1, which is at most 0 as well.
    if i == |threadId| || i == 0 || i == |threadId| - 1 then None
    else Some(Parts(threadId[..i], threadId[i + 1..]))
  }

  function Compose(peerId: string, sessionId: string): string { peerId + [SEPARATOR] + sessionId }

  function ChildThreadId(threadId: string, worker: string, task: seq<StableHash.Unit>): string {
    threadId + ":worker:" + worker + ":" + StableHash.ToBase36(StableHash.Hash(task))
  }

  predicate IsThreadForRawKey(threadId: string, rawKey: string) {
    threadId == rawKey || rawKey + "#" <= threadId
  }

  /** Parsing undoes composing for every peer id without a separator, when neither part is empty. */
  lemma ParseOfCompose(peerId: string, sessionId: string)
    requires peerId != "" && SEPARATOR !in peerId && sessionId != ""
    ensures Parse(Compose(peerId, sessionId)) == Some(Parts(peerId, sessionId))
  {
    var t := Compose(peerId, sessionId);
    assert t[..|peerId|] == peerId && t[|peerId| + 1..] == sessionId;
    FirstIsIndexOf(t, SEPARATOR, |peerId|);
  }

  /** Composing undoes parsing for every thread id that parses. */
  lemma ComposeOfParse(threadId: string)
    requires Parse(threadId).Some?
    ensures var p := Parse(threadId).value;
            && Compose(p.peerId, p.sessionId) == threadId
            && p.peerId != "" && p.sessionId != "" && SEPARATOR !in p.peerId
  {
    IndexOfIsFirst(threadId, SEPARATOR);
  }

  lemma ComposeSeparates(p1: string, s1: string, p2: string, s2: string)
    requires p1 != "" && SEPARATOR !in p1 && s1 != "" && p2 != "" && SEPARATOR !in p2 && s2 != ""
    requires Compose(p1, s1) == Compose(p2, s2)
    ensures p1 == p2 && s1 == s2
  {
    ParseOfCompose(p1, s1);
    ParseOfCompose(p2, s2);
  }

  /** A thread with a session suffix belongs to a raw key exactly when its peer is that key. */
  lemma MatchesItsPeerOnly(threadId: string, rawKey: string)
    requires SEPARATOR !in rawKey && Parse(threadId).Some?
    ensures IsThreadForRawKey(threadId, rawKey) <==> Parse(threadId).value.peerId == rawKey
  {
    var i := IndexOf(threadId, SEPARATOR);
    IndexOfIsFirst(threadId, SEPARATOR);
    if rawKey + "#" <= threadId {
      assert threadId[..|rawKey| + 1] == rawKey + "#";
      assert threadId[..|rawKey|] == rawKey && threadId[|rawKey|] == SEPARATOR;
      FirstIsIndexOf(threadId, SEPARATOR, |rawKey|);
    }
    if threadId[..i] == rawKey {
      assert rawKey + "#" == threadId[..i + 1];
    }
  }

  lemma ParseOfExtended(threadId: string, suffix: string)
    requires Parse(threadId).Some?
    ensures Parse(threadId + suffix).Some?
    ensures Parse(threadId + suffix).value
         == Parts(Parse(threadId).value.peerId, Parse(threadId).value.sessionId + suffix)
  {
    var i := IndexOf(threadId, SEPARATOR);
    IndexOfIsFirst(threadId, SEPARATOR);
    var t := threadId + suffix;
    assert t[..i] == threadId[..i] && t[i + 1..] == threadId[i + 1..] + suffix;
    FirstIsIndexOf(t, SEPARATOR, i);
  }

  /** So does the thread of a worker child, whatever the worker and the task are. */
  lemma ChildMatchesItsPeerOnly(threadId: string, worker: string, task: seq<StableHash.Unit>, rawKey: string)
    requires SEPARATOR !in rawKey && Parse(threadId).Some?
    ensures IsThreadForRawKey(ChildThreadId(threadId, worker, task), rawKey)
       <==> Parse(threadId).value.peerId == rawKey
  {
    var suffix := ":worker:" + worker + ":" + StableHash.ToBase36(StableHash.Hash(task));
    assert ChildThreadId(threadId, worker, task) == threadId + suffix;
    ParseOfExtended(threadId, suffix);
    MatchesItsPeerOnly(threadId + suffix, rawKey);
  }

  /** Tasks that differ in one character get different child threads. */
  lemma ChildrenOfDifferentTasks(threadId: string, worker: string, a: seq<StableHash.Unit>, b: seq<StableHash.Unit>,
                                 k: nat)
    requires |a| == |b| && k < |a| && a[k] != b[k]
    requires forall i :: 0 <= i < |a| && i != k ==> a[i] == b[i]
    ensures ChildThreadId(threadId, worker, a) != ChildThreadId(threadId, worker, b)
  {
    StableHash.OneUnitSeparates(a, b, k);
    var stem := threadId + ":worker:" + worker + ":";
    var s, t := StableHash.ToBase36(StableHash.Hash(a)), StableHash.ToBase36(StableHash.Hash(b));
    assert (stem + s)[|stem|..] == s && (stem + t)[|stem|..] == t;
  }

  /** The thread of a child is the same peer's; its session names the parent's, the worker and the hash of its task. */
  lemma ParseOfChild(threadId: string, worker: string, task: seq<StableHash.Unit>)
    requires Parse(threadId).Some?
    ensures var parent := Parse(threadId).value;
            Parse(ChildThreadId(threadId, worker, task))
            == Some(Parts(parent.peerId, parent.sessionId + ":worker:" + worker + ":"
                                         + StableHash.ToBase36(StableHash.Hash(task))))
  {
    var suffix := ":worker:" + worker + ":" + StableHash.ToBase36(StableHash.Hash(task));
    assert ChildThreadId(threadId, worker, task) == threadId + suffix;
    ParseOfExtended(threadId, suffix);
    var session := Parse(threadId).value.sessionId;
    assert session + suffix == session + ":worker:" + worker + ":" + StableHash.ToBase36(StableHash.Hash(task));
  }

  /** Different workers get different child threads for one task. */
  lemma ChildrenOfDifferentWorkers(threadId: string, v: string, w: string, task: seq<StableHash.Unit>)
    ensures ChildThreadId(threadId, v, task) == ChildThreadId(threadId, w, task) <==> v == w
  {
    var stem, tail := threadId + ":worker:", ":" + StableHash.ToBase36(StableHash.Hash(task));
    var s, t := ChildThreadId(threadId, v, task), ChildThreadId(threadId, w, task);
    assert s == stem + v + tail && t == stem + w + tail;
    hide *;
    if s == t {
      assert |v| == |w|;
      assert (stem + v + tail)[|stem|..|stem| + |v|] == v && (stem + w + tail)[|stem|..|stem| + |w|] == w;
    }
  }

  // ---- the raw key of a conversation ------------------------------------------------------------

  datatype Peer = Peer(channel: string, scope: string, peerNativeId: string)

  /** `resolveSessionThreadId`: which raw keys are resolved to a session, and as which peer. */
  function PeerOf(rawKey: string): Option<Peer> {
    if SEPARATOR in rawKey then None
    else
      var parts := Split(rawKey, ':');
      if |parts| < 3 then None
      else
        var native := Join(parts[2..], ":");
        if parts[0] == "" || parts[1] == "" || native == "" then None
        else Some(Peer(parts[0], parts[1], native))
  }

  /** The peer keeps all of the raw key, so different raw keys are different peers. */
  lemma PeerSpellsTheKey(rawKey: string)
    requires PeerOf(rawKey).Some?
    ensures var p := PeerOf(rawKey).value; rawKey == p.channel + ":" + p.scope + ":" + p.peerNativeId
    ensures SEPARATOR !in rawKey && rawKey != ""
  {
    var parts := Split(rawKey, ':');
    JoinOfSplit(rawKey, ':');
    assert parts == [parts[0], parts[1]] + parts[2..];
    JoinOfAppend([parts[0], parts[1]], parts[2..], ":");
    assert [parts[0], parts[1]][1..] == [parts[1]];
  }

  /** `channel:scope:id` without `#` is resolved, and nothing else; the id may hold further colons. */
  lemma PeerOfIff(rawKey: string, channel: string, scope: string, id: string)
    ensures PeerOf(rawKey) == Some(Peer(channel, scope, id))
       <==> && rawKey == channel + ":" + scope + ":" + id && '#' !in rawKey
            && channel != "" && scope != "" && id != "" && ':' !in channel && ':' !in scope
  {
    if PeerOf(rawKey) == Some(Peer(channel, scope, id)) {
      PeerSpellsTheKey(rawKey);
      SplitHasNoSeparator(rawKey, ':');
    }
    if rawKey == channel + ":" + scope + ":" + id && ':' !in channel && ':' !in scope {
      SplitOfThree(channel, scope, id);
      JoinOfSplit(id, ':');
      var parts := Split(rawKey, ':');
      assert parts[2..] == Split(id, ':') && parts[0] == channel && parts[1] == scope;
      hide Split, Join;
    }
  }

  lemma SplitOfThree(channel: string, scope: string, id: string)
    requires ':' !in channel && ':' !in scope
    ensures Split(channel + ":" + scope + ":" + id, ':') == [channel, scope] + Split(id, ':')
  {
    hide Split;
    SplitAround(channel, ':', scope + ":" + id);
    SplitAround(scope, ':', id);
    SplitWhole(channel, ':');
    SplitWhole(scope, ':');
    assert channel + ":" + scope + ":" + id == channel + [':'] + (scope + ":" + id);
    assert scope + ":" + id == scope + [':'] + id;
  }
}
