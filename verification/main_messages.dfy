/** The main screen: recent-message entries (`RecentMessage`) and the reconcile
    the recent-messages listener applies to every document change. */
module MainMessages {
  import opened Firestore
  import opened Seqs

  /** One entry of the recent-messages list; `id` is the document id, which is
      the partner's uid. */
  datatype RecentMessage = RecentMessage(documentId: string, text: string, email: string,
                                         fromId: string, toId: string, profileImageUrl: string,
                                         timestamp: int)
  {
    /** The `Identifiable` id of an entry is its document id. */
    function Id(): string { documentId }
  }

  /** `RecentMessage(documentId:data:)`: text fields default to `""`; a missing
      timestamp defaults to the clock reading `now`. */
  function Decode(documentId: string, data: Dict, now: int): (e: RecentMessage)
    ensures e.documentId == documentId
    ensures HasString(data, "text") ==> e.text == data["text"].s
    ensures !HasString(data, "text") ==> e.text == ""
    ensures HasString(data, "profileImageUrl") ==> e.profileImageUrl == data["profileImageUrl"].s
    ensures !HasString(data, "profileImageUrl") ==> e.profileImageUrl == ""
    ensures HasString(data, "email") ==> e.email == data["email"].s
    ensures !HasString(data, "email") ==> e.email == ""
    ensures HasString(data, "fromId") ==> e.fromId == data["fromId"].s
    ensures !HasString(data, "fromId") ==> e.fromId == ""
    ensures HasString(data, "toId") ==> e.toId == data["toId"].s
    ensures !HasString(data, "toId") ==> e.toId == ""
    ensures "timestamp" in data && data["timestamp"].Stamp? ==> e.timestamp == data["timestamp"].t
    ensures !("timestamp" in data && data["timestamp"].Stamp?) ==> e.timestamp == now
  {
    var timestamp := if "timestamp" in data && data["timestamp"].Stamp? then data["timestamp"].t else now;
    RecentMessage(documentId, StringField(data, "text"), StringField(data, "email"),
                  StringField(data, "fromId"), StringField(data, "toId"),
                  StringField(data, "profileImageUrl"), timestamp)
  }

  /** Some entry has document id `d`. */
  predicate HasDocument(list: seq<RecentMessage>, d: string) {
    exists i :: 0 <= i < |list| && list[i].documentId == d
  }

  /** No two entries share a document id. */
  predicate UniqueIds(list: seq<RecentMessage>) {
    forall i, j :: 0 <= i < j < |list| ==> list[i].documentId != list[j].documentId
  }

  /** Entries are ordered newest first. */
  predicate NewestFirst(list: seq<RecentMessage>) {
    forall i, j :: 0 <= i < j < |list| ==> list[i].timestamp >= list[j].timestamp
  }

  /** `firstIndex(where: { $0.documentId == d })`. */
  function FirstIndex(list: seq<RecentMessage>, d: string): (r: Option<nat>)
    ensures r.None? <==> !HasDocument(list, d)
    ensures r.Some? ==>
      && r.value < |list|
      && list[r.value].documentId == d
      && (forall k :: 0 <= k < r.value ==> list[k].documentId != d)
    decreases |list|
  {
    if |list| == 0 then None
    else if list[0].documentId == d then Some(0)
    else match FirstIndex(list[1..], d)
      case None =>
        assert forall k :: 0 < k < |list| ==> list[k] == list[1..][k - 1];
        None
      case Some(i) => Some(i + 1)
  }

  /** The list with the first entry for document `d` removed, if there is one:
      one entry shorter when `d` is listed, the same list otherwise. */
  function Without(list: seq<RecentMessage>, d: string): (r: seq<RecentMessage>)
    ensures HasDocument(list, d) ==> |r| == |list| - 1
    ensures !HasDocument(list, d) ==> r == list
  {
    match FirstIndex(list, d)
    case Some(i) => RemoveAt(list, i)
    case None => list
  }

  /** The entry removed is the first one with document id `d`: the entries
      before it and after it keep their places. */
  lemma WithoutRemovesFirst(list: seq<RecentMessage>, d: string, i: nat)
    requires i < |list| && list[i].documentId == d
    requires forall k :: 0 <= k < i ==> list[k].documentId != d
    ensures Without(list, d) == list[..i] + list[i + 1..]
  {
    match FirstIndex(list, d) {
      case None =>
        assert false;
      case Some(j) =>
        assert j == i;
    }
  }

  /** Removing the entry at `i` keeps every entry at another index, and adds
      nothing. */
  lemma RemoveAtKeepsEntries(list: seq<RecentMessage>, i: nat)
    requires i < |list|
    ensures forall k :: 0 <= k < |list| && k != i ==> list[k] in RemoveAt(list, i)
    ensures forall e :: e in RemoveAt(list, i) ==> e in list
  {
    var rest := RemoveAt(list, i);
    forall k | 0 <= k < |list| && k != i
      ensures list[k] in rest
    {
      if k < i { assert rest[k] == list[k]; } else { assert rest[k - 1] == list[k]; }
    }
    forall j | 0 <= j < |rest|
      ensures rest[j] in list
    {
      if j < i { assert rest[j] == list[j]; } else { assert rest[j] == list[j + 1]; }
    }
  }

  /** Removing the first entry for `d` keeps the others in order, keeps every
      entry with another document id, and adds nothing. */
  lemma WithoutKeepsOthers(list: seq<RecentMessage>, d: string)
    ensures HasDocument(list, d) ==> |Without(list, d)| == |list| - 1
    ensures !HasDocument(list, d) ==> Without(list, d) == list
    ensures IsSubsequence(Without(list, d), list)
    ensures forall k :: 0 <= k < |list| && list[k].documentId != d ==> list[k] in Without(list, d)
    ensures forall x :: x != d && HasDocument(list, x) ==> HasDocument(Without(list, d), x)
    ensures forall e :: e in Without(list, d) ==> e in list
  {
    var rest := Without(list, d);
    match FirstIndex(list, d) {
      case Some(i) =>
        RemoveAtIsSubsequence(list, i);
        RemoveAtKeepsEntries(list, i);
        forall x | x != d && HasDocument(list, x)
          ensures HasDocument(rest, x)
        {
          var k :| 0 <= k < |list| && list[k].documentId == x;
          assert list[k] in rest;
          var j :| 0 <= j < |rest| && rest[j] == list[k];
        }
      case None =>
        SubsequenceReflexive(list);
    }
  }

  /** Removing one entry keeps ids unique and the list newest first. */
  lemma RemoveAtKeepsOrder(list: seq<RecentMessage>, i: nat)
    requires i < |list|
    ensures UniqueIds(list) ==> UniqueIds(RemoveAt(list, i))
    ensures NewestFirst(list) ==> NewestFirst(RemoveAt(list, i))
  {
    var rest := RemoveAt(list, i);
    forall a, b | 0 <= a < b < |rest|
      ensures UniqueIds(list) ==> rest[a].documentId != rest[b].documentId
      ensures NewestFirst(list) ==> rest[a].timestamp >= rest[b].timestamp
    {
      var a' := if a < i then a else a + 1;
      var b' := if b < i then b else b + 1;
      assert a' < b' && rest[a] == list[a'] && rest[b] == list[b'];
    }
  }

  /** With unique ids, removing the entry for `d` leaves none for `d`. */
  lemma WithoutKeepsOrder(list: seq<RecentMessage>, d: string)
    ensures UniqueIds(list) ==> UniqueIds(Without(list, d)) && !HasDocument(Without(list, d), d)
    ensures NewestFirst(list) ==> NewestFirst(Without(list, d))
  {
    var rest := Without(list, d);
    match FirstIndex(list, d) {
      case Some(i) =>
        RemoveAtKeepsOrder(list, i);
        if UniqueIds(list) {
          forall k | 0 <= k < |rest|
            ensures rest[k].documentId != d
          {
            if k < i { assert rest[k] == list[k]; } else { assert rest[k] == list[k + 1]; }
          }
        }
      case None =>
    }
  }

  /** The listener's handling of one document change: drop the entry with the
      change's document id, then insert the decoded document at the front. The
      change's kind plays no part. */
  function Reconcile(list: seq<RecentMessage>, change: DocumentChange, now: int): (r: seq<RecentMessage>)
    ensures |r| > 0 && r[0] == Decode(change.docId, change.data, now)
    ensures HasDocument(list, change.docId) ==> |r| == |list|
    ensures !HasDocument(list, change.docId) ==> |r| == |list| + 1
  {
    var rest := Without(list, change.docId);
    WithoutKeepsOthers(list, change.docId);
    [Decode(change.docId, change.data, now)] + rest
  }

  /** Behind the new head the other entries keep their relative order, every
      entry for another document is still there, and nothing else is added. */
  lemma ReconcileKeepsOthers(list: seq<RecentMessage>, change: DocumentChange, now: int)
    ensures IsSubsequence(Reconcile(list, change, now)[1..], list)
    ensures forall k :: 0 <= k < |list| && list[k].documentId != change.docId ==>
      list[k] in Reconcile(list, change, now)[1..]
    ensures forall e :: e in Reconcile(list, change, now)[1..] ==> e in list
  {
    var r := Reconcile(list, change, now);
    WithoutKeepsOthers(list, change.docId);
    assert r[1..] == Without(list, change.docId);
  }

  /** Every listed document stays listed, and the changed one is listed. */
  lemma ReconcileKeepsDocuments(list: seq<RecentMessage>, change: DocumentChange, now: int)
    ensures HasDocument(Reconcile(list, change, now), change.docId)
    ensures forall x :: HasDocument(list, x) ==> HasDocument(Reconcile(list, change, now), x)
  {
    var r := Reconcile(list, change, now);
    var rest := Without(list, change.docId);
    WithoutKeepsOthers(list, change.docId);
    assert r == [Decode(change.docId, change.data, now)] + rest;
    assert r[0].documentId == change.docId;
    forall x | HasDocument(list, x) && x != change.docId
      ensures HasDocument(r, x)
    {
      var k :| 0 <= k < |rest| && rest[k].documentId == x;
      assert r[k + 1] == rest[k];
    }
  }

  /** Reconciling keeps document ids unique. */
  lemma ReconcileKeepsUniqueIds(list: seq<RecentMessage>, change: DocumentChange, now: int)
    requires UniqueIds(list)
    ensures UniqueIds(Reconcile(list, change, now))
  {
    var d := change.docId;
    var r := Reconcile(list, change, now);
    var rest := Without(list, d);
    WithoutKeepsOrder(list, d);
    assert r == [Decode(d, change.data, now)] + rest;
    forall a, b | 0 <= a < b < |r|
      ensures r[a].documentId != r[b].documentId
    {
      assert r[b] == rest[b - 1];
      if a > 0 {
        assert r[a] == rest[a - 1];
      }
    }
  }

  /** An entry at least as new as every listed one keeps the list newest first. */
  lemma ReconcileKeepsNewestFirst(list: seq<RecentMessage>, change: DocumentChange, now: int)
    requires NewestFirst(list)
    requires forall k :: 0 <= k < |list| ==> Decode(change.docId, change.data, now).timestamp >= list[k].timestamp
    ensures NewestFirst(Reconcile(list, change, now))
  {
    var d := change.docId;
    var head := [Decode(d, change.data, now)];
    var rest := Without(list, d);
    assert Reconcile(list, change, now) == head + rest;
    assert NewestFirst(rest) by {
      WithoutKeepsOrder(list, d);
    }
    assert forall k :: 0 <= k < |rest| ==> rest[k] in list by {
      WithoutKeepsOthers(list, d);
    }
    forall i, k | 0 <= i < |head| && 0 <= k < |rest|
      ensures head[i].timestamp >= rest[k].timestamp
    {
      var j :| 0 <= j < |list| && list[j] == rest[k];
    }
    ConcatNewestFirst(head, rest);
  }

  /** The listener callback of `fetchRecentMessages` over a snapshot: each
      change, in order, reconciled into the list. `nows[k]` is the clock
      reading taken while decoding the `k`-th change. The list never shrinks,
      grows by at most one entry per change, and ends with the last change's
      document at the front. */
  function ApplyChanges(list: seq<RecentMessage>, changes: seq<DocumentChange>, nows: seq<int>): (r: seq<RecentMessage>)
    requires |nows| == |changes|
    ensures |list| <= |r| <= |list| + |changes|
    ensures |changes| > 0 ==>
      |r| > 0 && r[0] == Decode(changes[|changes| - 1].docId, changes[|changes| - 1].data, nows[|changes| - 1])
    decreases |changes|
  {
    if |changes| == 0 then list
    else ApplyChanges(Reconcile(list, changes[0], nows[0]), changes[1..], nows[1..])
  }

  /** The decoded entries of a batch of changes, in batch order. */
  function DecodeAll(changes: seq<DocumentChange>, nows: seq<int>): (r: seq<RecentMessage>)
    requires |nows| == |changes|
    ensures |r| == |changes|
    ensures forall k :: 0 <= k < |changes| ==> r[k] == Decode(changes[k].docId, changes[k].data, nows[k])
  {
    seq(|changes|, k requires 0 <= k < |changes| => Decode(changes[k].docId, changes[k].data, nows[k]))
  }

  /** A change for a document not yet listed puts it in front of the old list. */
  lemma ReconcileFresh(list: seq<RecentMessage>, change: DocumentChange, now: int)
    requires !HasDocument(list, change.docId)
    ensures Reconcile(list, change, now) == [Decode(change.docId, change.data, now)] + list
  {
    assert Without(list, change.docId) == list;
  }

  /** Putting an entry in front lists no other document. */
  lemma PrependKeepsAbsent(e: RecentMessage, list: seq<RecentMessage>, x: string)
    requires !HasDocument(list, x) && e.documentId != x
    ensures !HasDocument([e] + list, x)
  {
    forall j | 0 <= j < |[e] + list|
      ensures ([e] + list)[j].documentId != x
    {
      if j > 0 {
        assert ([e] + list)[j] == list[j - 1];
      }
    }
  }

  /** Decoding a batch and reversing it ends with the batch's first entry. */
  lemma ReverseDecodeAllFirst(changes: seq<DocumentChange>, nows: seq<int>)
    requires |nows| == |changes| > 0
    ensures Reverse(DecodeAll(changes, nows))
      == Reverse(DecodeAll(changes[1..], nows[1..])) + [Decode(changes[0].docId, changes[0].data, nows[0])]
  {
    var all := DecodeAll(changes, nows);
    assert all[1..] == DecodeAll(changes[1..], nows[1..]);
  }

  /** The later changes of a fresh batch are still fresh once the first one's
      entry is in front. */
  lemma RestStaysFresh(list: seq<RecentMessage>, changes: seq<DocumentChange>, now: int)
    requires |changes| > 0
    requires forall a, b :: 0 <= a < b < |changes| ==> changes[a].docId != changes[b].docId
    requires forall k :: 0 <= k < |changes| ==> !HasDocument(list, changes[k].docId)
    ensures forall a, b :: 0 <= a < b < |changes[1..]| ==> changes[1..][a].docId != changes[1..][b].docId
    ensures forall k :: 0 <= k < |changes[1..]| ==>
      !HasDocument([Decode(changes[0].docId, changes[0].data, now)] + list, changes[1..][k].docId)
  {
    var rest := changes[1..];
    forall a, b | 0 <= a < b < |rest|
      ensures rest[a].docId != rest[b].docId
    {
      assert rest[a] == changes[a + 1] && rest[b] == changes[b + 1];
    }
    forall k | 0 <= k < |rest|
      ensures !HasDocument([Decode(changes[0].docId, changes[0].data, now)] + list, rest[k].docId)
    {
      assert rest[k] == changes[k + 1];
      PrependKeepsAbsent(Decode(changes[0].docId, changes[0].data, now), list, rest[k].docId);
    }
  }

  /** A batch of new documents with distinct ids ends up at the front, ahead
      of the old entries, in reverse batch order. */
  lemma {:induction false} ApplyFreshBatch(list: seq<RecentMessage>, changes: seq<DocumentChange>, nows: seq<int>)
    requires |nows| == |changes|
    requires forall a, b :: 0 <= a < b < |changes| ==> changes[a].docId != changes[b].docId
    requires forall k :: 0 <= k < |changes| ==> !HasDocument(list, changes[k].docId)
    ensures ApplyChanges(list, changes, nows) == Reverse(DecodeAll(changes, nows)) + list
    decreases |changes|
  {
    if |changes| == 0 {
      assert Reverse(DecodeAll(changes, nows)) == [];
    } else {
      var head := Decode(changes[0].docId, changes[0].data, nows[0]);
      var later := Reverse(DecodeAll(changes[1..], nows[1..]));
      assert ApplyChanges(list, changes, nows) == ApplyChanges([head] + list, changes[1..], nows[1..]) by {
        ReconcileFresh(list, changes[0], nows[0]);
      }
      assert ApplyChanges([head] + list, changes[1..], nows[1..]) == later + ([head] + list) by {
        RestStaysFresh(list, changes, nows[0]);
        ApplyFreshBatch([head] + list, changes[1..], nows[1..]);
      }
      assert Reverse(DecodeAll(changes, nows)) == later + [head] by {
        ReverseDecodeAllFirst(changes, nows);
      }
      ConcatAssociates(later, [head], list);
    }
  }

  /** Joining sequences does not depend on grouping. */
  lemma ConcatAssociates(a: seq<RecentMessage>, b: seq<RecentMessage>, c: seq<RecentMessage>)
    ensures a + (b + c) == (a + b) + c
  {
  }

  /** The query orders the snapshot by ascending timestamp: a fresh batch
      whose entries come oldest first, over a newest-first list no newer than
      any of them, leaves the whole list newest first. */
  lemma ApplyFreshBatchNewestFirst(list: seq<RecentMessage>, changes: seq<DocumentChange>, nows: seq<int>)
    requires |nows| == |changes|
    requires forall a, b :: 0 <= a < b < |changes| ==> changes[a].docId != changes[b].docId
    requires forall k :: 0 <= k < |changes| ==> !HasDocument(list, changes[k].docId)
    requires forall a, b :: 0 <= a < b < |changes| ==>
      DecodeAll(changes, nows)[a].timestamp <= DecodeAll(changes, nows)[b].timestamp
    requires NewestFirst(list)
    requires forall a, k :: 0 <= a < |changes| && 0 <= k < |list| ==>
      DecodeAll(changes, nows)[a].timestamp >= list[k].timestamp
    ensures NewestFirst(ApplyChanges(list, changes, nows))
  {
    var batch := DecodeAll(changes, nows);
    assert ApplyChanges(list, changes, nows) == Reverse(batch) + list by {
      ApplyFreshBatch(list, changes, nows);
    }
    ReversedBatchOverList(batch, list);
  }

  /** An oldest-first batch, none older than a newest-first list, reversed in
      front of that list gives a newest-first list. */
  lemma ReversedBatchOverList(batch: seq<RecentMessage>, list: seq<RecentMessage>)
    requires forall a, b :: 0 <= a < b < |batch| ==> batch[a].timestamp <= batch[b].timestamp
    requires NewestFirst(list)
    requires forall a, k :: 0 <= a < |batch| && 0 <= k < |list| ==> batch[a].timestamp >= list[k].timestamp
    ensures NewestFirst(Reverse(batch) + list)
  {
    ReverseOldestFirst(batch);
    ReverseNoOlder(batch, list);
    ConcatNewestFirst(Reverse(batch), list);
  }

  /** Reversing a batch none of whose entries is older than a list's keeps
      that so. */
  lemma ReverseNoOlder(batch: seq<RecentMessage>, list: seq<RecentMessage>)
    requires forall a, k :: 0 <= a < |batch| && 0 <= k < |list| ==> batch[a].timestamp >= list[k].timestamp
    ensures forall i, k :: 0 <= i < |Reverse(batch)| && 0 <= k < |list| ==> Reverse(batch)[i].timestamp >= list[k].timestamp
  {
    forall i, k | 0 <= i < |Reverse(batch)| && 0 <= k < |list|
      ensures Reverse(batch)[i].timestamp >= list[k].timestamp
    {
      assert Reverse(batch)[i] == batch[|batch| - 1 - i];
    }
  }

  /** Entries listed oldest first are newest first once reversed. */
  lemma ReverseOldestFirst(batch: seq<RecentMessage>)
    requires forall a, b :: 0 <= a < b < |batch| ==> batch[a].timestamp <= batch[b].timestamp
    ensures NewestFirst(Reverse(batch))
  {
    var r := Reverse(batch);
    forall i, j | 0 <= i < j < |r|
      ensures r[i].timestamp >= r[j].timestamp
    {
      assert r[i] == batch[|batch| - 1 - i] && r[j] == batch[|batch| - 1 - j];
    }
  }

  /** Two newest-first lists, the first no older than the second, join into one. */
  lemma ConcatNewestFirst(a: seq<RecentMessage>, b: seq<RecentMessage>)
    requires NewestFirst(a) && NewestFirst(b)
    requires forall i, k :: 0 <= i < |a| && 0 <= k < |b| ==> a[i].timestamp >= b[k].timestamp
    ensures NewestFirst(a + b)
  {
    var r := a + b;
    forall i, j | 0 <= i < j < |r|
      ensures r[i].timestamp >= r[j].timestamp
    {
      if j < |a| {
        assert r[i] == a[i] && r[j] == a[j];
      } else if i < |a| {
        assert r[i] == a[i] && r[j] == b[j - |a|];
      } else {
        assert r[i] == b[i - |a|] && r[j] == b[j - |a|];
      }
    }
  }

  /** One step of the listener loop: reconciling the `i`-th change keeps the
      documents of the earlier changes listed, lists the `i`-th, keeps ids
      unique, and leaves the remaining changes to apply. */
  lemma ReconcileStep(r: seq<RecentMessage>, changes: seq<DocumentChange>, nows: seq<int>, i: nat)
    requires |nows| == |changes| && i < |changes|
    requires forall k :: 0 <= k < i ==> HasDocument(r, changes[k].docId)
    ensures forall k :: 0 <= k <= i ==> HasDocument(Reconcile(r, changes[i], nows[i]), changes[k].docId)
    ensures UniqueIds(r) ==> UniqueIds(Reconcile(r, changes[i], nows[i]))
    ensures ApplyChanges(Reconcile(r, changes[i], nows[i]), changes[i + 1..], nows[i + 1..])
      == ApplyChanges(r, changes[i..], nows[i..])
  {
    ReconcileKeepsDocuments(r, changes[i], nows[i]);
    if UniqueIds(r) {
      ReconcileKeepsUniqueIds(r, changes[i], nows[i]);
    }
    assert changes[i..][1..] == changes[i + 1..];
    assert nows[i..][1..] == nows[i + 1..];
  }

  /** The listener callback of `fetchRecentMessages`: every change of the
      snapshot, in order, reconciled into the list, each decoded with its own
      clock reading. Afterwards every changed document is listed, the last one
      at the front, and ids stay unique. */
  method HandleRecentSnapshot(list: seq<RecentMessage>, changes: seq<DocumentChange>, nows: seq<int>)
    returns (r: seq<RecentMessage>)
    requires |nows| == |changes|
    ensures r == ApplyChanges(list, changes, nows)
    ensures forall k :: 0 <= k < |changes| ==> HasDocument(r, changes[k].docId)
    ensures |changes| > 0 ==> |r| > 0 && r[0].documentId == changes[|changes| - 1].docId
    ensures UniqueIds(list) ==> UniqueIds(r)
  {
    r := list;
    var i := 0;
    while i < |changes|
      invariant 0 <= i <= |changes|
      invariant ApplyChanges(r, changes[i..], nows[i..]) == ApplyChanges(list, changes, nows)
      invariant forall k :: 0 <= k < i ==> HasDocument(r, changes[k].docId)
      invariant i > 0 ==> |r| > 0 && r[0].documentId == changes[i - 1].docId
      invariant UniqueIds(list) ==> UniqueIds(r)
    {
      ReconcileStep(r, changes, nows, i);
      var next := Reconcile(r, changes[i], nows[i]);
      assert |next| > 0 && next[0].documentId == changes[i].docId;
      r := next;
      i := i + 1;
    }
    assert changes[i..] == [] && nows[i..] == [];
  }

  /** Every change kind, removals included, puts its document at the front. */
  lemma ReconcileIgnoresKind(list: seq<RecentMessage>, d: string, data: Dict, now: int, k1: ChangeKind, k2: ChangeKind)
    ensures Reconcile(list, DocumentChange(k1, d, data), now) == Reconcile(list, DocumentChange(k2, d, data), now)
    ensures Reconcile(list, DocumentChange(Removed, d, data), now)[0].documentId == d
  {
  }
}
