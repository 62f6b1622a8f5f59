/** Sending a message from the chat log (`handleSend` with `persistRecentMessage`)
    as a transition of the store. The auto-generated document ids, the clock
    readings and whether each of the three writes succeeds are inputs. */
module Send {
  import opened Firestore
  import opened Users
  import ChatMessages
  import MainMessages

  /** The document `handleSend` writes, identical for both copies of the message. */
  function MessageRecord(fromId: string, toId: string, text: string, sentAt: int): (r: Dict)
    ensures forall id :: ChatMessages.Decode(id, r) == ChatMessages.ChatMessage(id, fromId, toId, text, [])
    ensures "timestamp" in r && r["timestamp"] == Stamp(sentAt)
  {
    map["fromId" := Str(fromId), "toId" := Str(toId), "text" := Str(text),
        "timestamp" := Stamp(sentAt), "likes" := Arr([])]
  }

  /** The document `persistRecentMessage` writes: the text and the peer's profile. */
  function RecentRecord(fromId: string, peer: ChatUser, text: string, at: int): (r: Dict)
    ensures forall now ::
      (MainMessages.Decode(peer.uid, r, now)
       == MainMessages.RecentMessage(peer.uid, text, peer.email, fromId, peer.uid, peer.profileImageUrl, at))
  {
    map["timestamp" := Stamp(at), "text" := Str(text), "fromId" := Str(fromId),
        "toId" := Str(peer.uid), "profileImageUrl" := Str(peer.profileImageUrl),
        "email" := Str(peer.email)]
  }

  /** Which writes the database accepted: the sender's copy, the recipient's
      copy, and the sender's recent-message entry. */
  datatype WriteResults = WriteResults(senderCopy: bool, recipientCopy: bool, recent: bool)

  /** The store after a send, and the text left in the input field. */
  datatype SendOutcome = SendOutcome(store: Store, chatText: string)

  /** `handleSend`: without a signed-in user or a chat partner nothing happens.
      Otherwise the same record goes to `messages/{from}/{to}` and to
      `messages/{to}/{from}` as two independent writes; only once the sender's
      copy is saved is the sender's recent entry for the partner upserted and
      the input field cleared. */
  function HandleSend(s: Store, currentUid: Option<string>, chatUser: Option<ChatUser>,
                      chatText: string, sentAt: int, recentAt: int,
                      senderDocId: string, recipientDocId: string, ok: WriteResults): (r: SendOutcome)
    ensures currentUid.None? || chatUser.None? ==> r == SendOutcome(s, chatText)
    ensures currentUid.Some? && chatUser.Some? ==>
      var fromId, toId := currentUid.value, chatUser.value.uid;
      && (r.chatText == "" <==> ok.senderCopy || chatText == "")
      && (ok.senderCopy ==> MessagePath(fromId, toId, senderDocId) in r.store.messages)
      && (ok.recipientCopy ==> MessagePath(toId, fromId, recipientDocId) in r.store.messages)
      && (!ok.senderCopy ==> r.chatText == chatText)
      && (ok.senderCopy ==>
            r.store.messages[MessagePath(fromId, toId, senderDocId)] == MessageRecord(fromId, toId, chatText, sentAt))
      && (ok.recipientCopy ==>
            r.store.messages[MessagePath(toId, fromId, recipientDocId)] == MessageRecord(fromId, toId, chatText, sentAt))
      && (ok.senderCopy && ok.recent ==>
            RecentPath(fromId, toId) in r.store.recent
            && r.store.recent[RecentPath(fromId, toId)] == RecentRecord(fromId, chatUser.value, chatText, recentAt))
      && (ok.senderCopy && ok.recipientCopy ==>
            r.store.messages[MessagePath(fromId, toId, senderDocId)]
            == r.store.messages[MessagePath(toId, fromId, recipientDocId)])
  {
    if currentUid.None? || chatUser.None? then SendOutcome(s, chatText)
    else
      var fromId, peer := currentUid.value, chatUser.value;
      var toId := peer.uid;
      var record := MessageRecord(fromId, toId, chatText, sentAt);
      var afterSender :=
        if ok.senderCopy then s.messages[MessagePath(fromId, toId, senderDocId) := record] else s.messages;
      var afterRecipient :=
        if ok.recipientCopy then afterSender[MessagePath(toId, fromId, recipientDocId) := record] else afterSender;
      var recent :=
        if ok.senderCopy && ok.recent then s.recent[RecentPath(fromId, toId) := RecentRecord(fromId, peer, chatText, recentAt)]
        else s.recent;
      SendOutcome(Store(afterRecipient, recent), if ok.senderCopy then "" else chatText)
  }

  /** Each saved copy reads back as the message sent: sender, recipient and
      text as given, and no likes. */
  lemma SentCopiesDecode(s: Store, fromId: string, peer: ChatUser, chatText: string, sentAt: int,
                         recentAt: int, senderDocId: string, recipientDocId: string, ok: WriteResults)
    ensures var m := HandleSend(s, Some(fromId), Some(peer), chatText, sentAt, recentAt,
                                senderDocId, recipientDocId, ok).store.messages;
      && (ok.senderCopy ==>
            ChatMessages.Decode(senderDocId, m[MessagePath(fromId, peer.uid, senderDocId)])
            == ChatMessages.ChatMessage(senderDocId, fromId, peer.uid, chatText, []))
      && (ok.recipientCopy ==>
            ChatMessages.Decode(recipientDocId, m[MessagePath(peer.uid, fromId, recipientDocId)])
            == ChatMessages.ChatMessage(recipientDocId, fromId, peer.uid, chatText, []))
  {
    var m := HandleSend(s, Some(fromId), Some(peer), chatText, sentAt, recentAt,
                        senderDocId, recipientDocId, ok).store.messages;
    var record := MessageRecord(fromId, peer.uid, chatText, sentAt);
    if ok.senderCopy {
      if ok.recipientCopy {
        assert m[MessagePath(fromId, peer.uid, senderDocId)] == record;
      }
    }
    if ok.recipientCopy {
      assert m[MessagePath(peer.uid, fromId, recipientDocId)] == record;
    }
    assert HasStringList(record, "likes");
  }

  /** A send writes message documents only at the two copies' paths, and each
      only when its write succeeds; a failed write leaves its path as it was. */
  lemma SendWritesOnlyTheCopies(s: Store, fromId: string, peer: ChatUser, chatText: string, sentAt: int,
                                recentAt: int, senderDocId: string, recipientDocId: string, ok: WriteResults,
                                p: MessagePath)
    requires !(ok.senderCopy && p == MessagePath(fromId, peer.uid, senderDocId))
    requires !(ok.recipientCopy && p == MessagePath(peer.uid, fromId, recipientDocId))
    ensures var m := HandleSend(s, Some(fromId), Some(peer), chatText, sentAt, recentAt,
                                senderDocId, recipientDocId, ok).store.messages;
      (p in m <==> p in s.messages) && (p in m ==> m[p] == s.messages[p])
  {
  }

  /** The recent index changes only at the sender's entry for the partner, and
      only when both the sender's copy and the recent entry were saved; the entry
      then carries the text and the partner's email and picture. */
  lemma SendTouchesOnlySenderRecent(s: Store, fromId: string, peer: ChatUser, chatText: string, sentAt: int,
                                    recentAt: int, senderDocId: string, recipientDocId: string, ok: WriteResults)
    ensures var r := HandleSend(s, Some(fromId), Some(peer), chatText, sentAt, recentAt,
                                senderDocId, recipientDocId, ok).store.recent;
      && (forall k :: k != RecentPath(fromId, peer.uid) ==>
            (k in r <==> k in s.recent) && (k in r ==> r[k] == s.recent[k]))
      && (!(ok.senderCopy && ok.recent) ==> r == s.recent)
      && (ok.senderCopy && ok.recent ==>
            var e := r[RecentPath(fromId, peer.uid)];
            StringField(e, "text") == chatText && StringField(e, "email") == peer.email
            && StringField(e, "profileImageUrl") == peer.profileImageUrl
            && StringField(e, "fromId") == fromId && StringField(e, "toId") == peer.uid
            && e == RecentRecord(fromId, peer, chatText, recentAt))
  {
  }

  /** The recipient's recent index is never touched by a send to them. */
  lemma SendLeavesRecipientRecent(s: Store, fromId: string, peer: ChatUser, chatText: string, sentAt: int,
                                  recentAt: int, senderDocId: string, recipientDocId: string, ok: WriteResults,
                                  peerOfRecipient: string)
    requires peer.uid != fromId
    ensures var r := HandleSend(s, Some(fromId), Some(peer), chatText, sentAt, recentAt,
                                senderDocId, recipientDocId, ok).store.recent;
      var k := RecentPath(peer.uid, peerOfRecipient);
      (k in r <==> k in s.recent) && (k in r ==> r[k] == s.recent[k])
  {
    SendTouchesOnlySenderRecent(s, fromId, peer, chatText, sentAt, recentAt, senderDocId, recipientDocId, ok);
  }
}
