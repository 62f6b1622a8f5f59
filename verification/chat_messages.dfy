/** A message as the chat log shows it, `ChatMessage` in the client, and the
    chat log's handling of the snapshots its listener receives. */
module ChatMessages {
  import opened Firestore

  datatype ChatMessage = ChatMessage(documentId: string, fromId: string, toId: string, text: string, likes: seq<string>)
  {
    /** The `Identifiable` id of a message is its document id. */
    function Id(): string { documentId }
  }

  /** `ChatMessage(documentId:data:)`: text fields default to `""`, the likes
      to `[]`, whenever the key is missing or holds a value of another type. */
  function Decode(documentId: string, data: Dict): (m: ChatMessage)
    ensures m.documentId == documentId
    ensures HasString(data, "fromId") ==> m.fromId == data["fromId"].s
    ensures !HasString(data, "fromId") ==> m.fromId == ""
    ensures HasString(data, "toId") ==> m.toId == data["toId"].s
    ensures !HasString(data, "toId") ==> m.toId == ""
    ensures HasString(data, "text") ==> m.text == data["text"].s
    ensures !HasString(data, "text") ==> m.text == ""
    ensures HasStringList(data, "likes") ==>
      |m.likes| == |data["likes"].elems| &&
      forall i :: 0 <= i < |m.likes| ==> m.likes[i] == data["likes"].elems[i].s
    ensures !HasStringList(data, "likes") ==> m.likes == []
  {
    ChatMessage(documentId, StringField(data, "fromId"), StringField(data, "toId"),
                StringField(data, "text"), StringListField(data, "likes"))
  }

  /** `m` is the decoding of some `.added` change of `changes`. */
  predicate FromAdded(m: ChatMessage, changes: seq<DocumentChange>) {
    exists k :: 0 <= k < |changes| && changes[k].kind == Added && m == Decode(changes[k].docId, changes[k].data)
  }

  /** The messages a snapshot contributes to the log: its `.added` changes,
      decoded, in snapshot order. There are at most as many as changes, and
      each one is the decoding of an added change. */
  function AddedMessages(changes: seq<DocumentChange>): (r: seq<ChatMessage>)
    ensures |r| <= |changes|
    ensures forall i :: 0 <= i < |r| ==> FromAdded(r[i], changes)
    decreases |changes|
  {
    if |changes| == 0 then []
    else
      var rest := AddedMessages(changes[1..]);
      FromLaterChanges(changes, rest);
      var head := if changes[0].kind == Added then [Decode(changes[0].docId, changes[0].data)] else [];
      assert changes[0].kind == Added ==> FromAdded(head[0], changes);
      head + rest
  }

  /** What the changes after the first contribute comes from added changes of
      the whole list. */
  lemma FromLaterChanges(changes: seq<DocumentChange>, rest: seq<ChatMessage>)
    requires |changes| > 0
    requires forall i :: 0 <= i < |rest| ==> FromAdded(rest[i], changes[1..])
    ensures forall i :: 0 <= i < |rest| ==> FromAdded(rest[i], changes)
  {
    forall i | 0 <= i < |rest|
      ensures FromAdded(rest[i], changes)
    {
      var later := changes[1..];
      assert FromAdded(rest[i], later);
      var k :| 0 <= k < |later| && later[k].kind == Added && rest[i] == Decode(later[k].docId, later[k].data);
      assert changes[k + 1] == later[k];
    }
  }

  /** Handling two snapshots back to back is handling their concatenation. */
  lemma {:induction false} AddedMessagesConcat(a: seq<DocumentChange>, b: seq<DocumentChange>)
    ensures AddedMessages(a + b) == AddedMessages(a) + AddedMessages(b)
    decreases |a|
  {
    if |a| > 0 {
      var head := if a[0].kind == Added then [Decode(a[0].docId, a[0].data)] else [];
      assert (a + b)[0] == a[0] && (a + b)[1..] == a[1..] + b;
      assert AddedMessages(a + b) == head + AddedMessages(a[1..] + b);
      assert AddedMessages(a) == head + AddedMessages(a[1..]);
      AddedMessagesConcat(a[1..], b);
    } else {
      assert a + b == b;
    }
  }

  /** A snapshot with no `.added` change contributes nothing. */
  lemma {:induction false} AddedMessagesWithoutAdded(changes: seq<DocumentChange>)
    requires forall i :: 0 <= i < |changes| ==> changes[i].kind != Added
    ensures AddedMessages(changes) == []
    decreases |changes|
  {
    if |changes| > 0 {
      AddedMessagesWithoutAdded(changes[1..]);
    }
  }

  /** A snapshot of only `.added` changes contributes each one, decoded, in order. */
  lemma {:induction false} AddedMessagesAllAdded(changes: seq<DocumentChange>)
    requires forall i :: 0 <= i < |changes| ==> changes[i].kind == Added
    ensures |AddedMessages(changes)| == |changes|
    ensures forall i :: 0 <= i < |changes| ==>
      AddedMessages(changes)[i] == Decode(changes[i].docId, changes[i].data)
    decreases |changes|
  {
    if |changes| > 0 {
      AddedMessagesAllAdded(changes[1..]);
    }
  }

  /** The listener callback of `fetchMessages`: walks the document changes in
      order, appending each `.added` one to the end of the chat log. */
  method HandleSnapshot(chatMessages: seq<ChatMessage>, changes: seq<DocumentChange>)
    returns (r: seq<ChatMessage>)
    ensures r == chatMessages + AddedMessages(changes)
    ensures |r| >= |chatMessages| && r[..|chatMessages|] == chatMessages
  {
    r := chatMessages;
    var i := 0;
    while i < |changes|
      invariant 0 <= i <= |changes|
      invariant r == chatMessages + AddedMessages(changes[..i])
    {
      var change := changes[i];
      AddedMessagesConcat(changes[..i], [change]);
      assert changes[..i + 1] == changes[..i] + [change];
      if change.kind == Added {
        r := r + [Decode(change.docId, change.data)];
      }
      i := i + 1;
    }
    assert changes[..i] == changes;
  }
}
