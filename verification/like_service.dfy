/** Liking a message from the chat log: the read-modify-write of
    `ChatLogViewModel.likeMessage` and `LikeManager.likeMessage`, and
    `LikeManager.isLiked`. Read, write and commit outcomes are inputs. */
module LikeService {
  import opened Firestore
  import opened ChatMessages
  import Likes
  import Users
  import Send

  /** Where both like actions and `isLiked` look: the document under the
      message's own `fromId` and `toId`, whichever log it was shown in. */
  function TargetPath(m: ChatMessage): (p: MessagePath)
    ensures p.owner == m.fromId && p.peer == m.toId && p.docId == m.documentId
  {
    MessagePath(m.fromId, m.toId, m.documentId)
  }

  /** The target document's likes, or None when the document is missing or
      its `likes` is not a string array (the guard of both like actions). */
  function StoredLikes(s: Store, m: ChatMessage): (r: Option<seq<string>>)
    ensures r.Some? <==> TargetPath(m) in s.messages && HasStringList(s.messages[TargetPath(m)], "likes")
  {
    if TargetPath(m) in s.messages then StringListOf(s.messages[TargetPath(m)], "likes") else None
  }

  /** The update both like actions commit: `updateData(["likes": toggled])` on
      the target document, nothing when the guard fails. */
  function ToggleInStore(s: Store, userId: string, m: ChatMessage): (r: Store)
    ensures r.recent == s.recent
    ensures r.messages.Keys == s.messages.Keys
    ensures forall p :: p in s.messages && p != TargetPath(m) ==> r.messages[p] == s.messages[p]
    ensures StoredLikes(s, m).None? ==> r == s
    ensures StoredLikes(s, m).Some? ==>
      StoredLikes(r, m) == Some(Likes.Toggle(StoredLikes(s, m).value, userId))
    ensures TargetPath(m) in s.messages ==>
      forall k :: k != "likes" ==>
        (k in r.messages[TargetPath(m)] <==> k in s.messages[TargetPath(m)])
        && (k in s.messages[TargetPath(m)] ==> r.messages[TargetPath(m)][k] == s.messages[TargetPath(m)][k])
  {
    match StoredLikes(s, m)
    case None => s
    case Some(likes) =>
      var p := TargetPath(m);
      var updated := s.messages[p]["likes" := Arr(FromStrings(Likes.Toggle(likes, userId)))];
      assert StringListOf(updated, "likes") == Some(Likes.Toggle(likes, userId));
      s.(messages := s.messages[p := updated])
  }

  /** A committed toggle always changes the store: the user's membership flips. */
  lemma ToggleChangesStore(s: Store, userId: string, m: ChatMessage)
    requires StoredLikes(s, m).Some?
    ensures ToggleInStore(s, userId, m) != s
  {
    var likes := StoredLikes(s, m).value;
    assert (userId in Likes.Toggle(likes, userId)) != (userId in likes);
  }

  /** `LikeManager.isLiked`: false without a signed-in user, when the read fails,
      or when the guard fails; otherwise whether the user is among the likes. */
  function IsLiked(s: Store, currentUid: Option<string>, m: ChatMessage, readOk: bool): (r: bool)
    ensures currentUid.None? || !readOk || StoredLikes(s, m).None? ==> !r
    ensures currentUid.Some? && readOk && StoredLikes(s, m).Some? ==>
      (r <==> currentUid.value in StoredLikes(s, m).value)
    ensures r ==> TargetPath(m) in s.messages
  {
    match currentUid
    case None => false
    case Some(uid) =>
      readOk && match StoredLikes(s, m)
        case None => false
        case Some(likes) => uid in likes
  }

  /** A toggle flips what `isLiked` reports for the toggling user; where the
      guard fails the toggle changes nothing and `isLiked` reports false. */
  lemma ToggleFlipsIsLiked(s: Store, userId: string, m: ChatMessage)
    ensures StoredLikes(s, m).Some? ==>
      IsLiked(ToggleInStore(s, userId, m), Some(userId), m, true) == !IsLiked(s, Some(userId), m, true)
    ensures StoredLikes(s, m).None? ==>
      ToggleInStore(s, userId, m) == s && !IsLiked(s, Some(userId), m, true)
  {
  }

  /** A toggle leaves what `isLiked` reports for every other user unchanged. */
  lemma ToggleKeepsOthersLiked(s: Store, userId: string, other: string, m: ChatMessage)
    requires other != userId
    ensures IsLiked(ToggleInStore(s, userId, m), Some(other), m, true) == IsLiked(s, Some(other), m, true)
  {
  }

  /** `ChatLogViewModel.likeMessage`: read the message, then write the toggled
      likes back, with no transaction around the two. */
  function LikeMessage(s: Store, currentUid: Option<string>, m: ChatMessage, readOk: bool, writeOk: bool): (r: Store)
    ensures currentUid.None? || !readOk || !writeOk ==> r == s
    ensures currentUid.Some? && readOk && writeOk ==> r == ToggleInStore(s, currentUid.value, m)
    ensures r.recent == s.recent
  {
    if currentUid.None? || !readOk || !writeOk then s else ToggleInStore(s, currentUid.value, m)
  }

  /** The store after a like action and the values passed to `completion`, in order. */
  datatype LikeReport = LikeReport(store: Store, completions: seq<bool>)

  /** `LikeManager.likeMessage` as written. When the read fails or the guard
      fails inside the transaction block, the block calls `completion(false)` and
      returns nil without setting the error pointer, so the transaction commits
      with no writes and the outer closure calls `completion` a second time with
      the commit's outcome. */
  function LikeManagerAsWritten(s: Store, currentUid: Option<string>, m: ChatMessage,
                                readOk: bool, commitOk: bool): (r: LikeReport)
    ensures currentUid.None? ==> r == LikeReport(s, [false])
    ensures currentUid.Some? && (!readOk || StoredLikes(s, m).None?) ==>
      r.store == s && r.completions == [false, commitOk]
    ensures currentUid.Some? ==> |r.completions| > 0 && r.completions[|r.completions| - 1] == commitOk
    ensures r.store != s ==> commitOk && r.completions == [true]
    ensures r.store == s || (currentUid.Some? && r.store == ToggleInStore(s, currentUid.value, m))
    ensures currentUid.Some? && readOk && StoredLikes(s, m).Some? ==>
      r == LikeReport(if commitOk then ToggleInStore(s, currentUid.value, m) else s, [commitOk])
  {
    match currentUid
    case None => LikeReport(s, [false])
    case Some(uid) =>
      if !readOk || StoredLikes(s, m).None? then LikeReport(s, [false, commitOk])
      else LikeReport(if commitOk then ToggleInStore(s, uid, m) else s, [commitOk])
  }

  /** As written, a message without a stored string-array `likes` (a missing
      document included) is reported a success after a failure, although
      nothing was stored. */
  lemma AsWrittenReportsSuccessWithoutChange(s: Store, uid: string, m: ChatMessage)
    requires StoredLikes(s, m).None?
    ensures LikeManagerAsWritten(s, Some(uid), m, true, true) == LikeReport(s, [false, true])
    ensures true in LikeManagerAsWritten(s, Some(uid), m, true, true).completions
  {
  }

  /** `LikeManager.likeMessage` with the guard's failure ending the action:
      `completion` is called once, and with true exactly when the likes changed. */
  function LikeManagerCorrected(s: Store, currentUid: Option<string>, m: ChatMessage,
                                readOk: bool, commitOk: bool): (r: LikeReport)
    ensures |r.completions| == 1
    ensures r.completions[0] <==> r.store != s
    ensures r.completions[0] ==> currentUid.Some? && r.store == ToggleInStore(s, currentUid.value, m)
    ensures !r.completions[0] ==> r.store == s
    ensures currentUid.Some? && readOk && StoredLikes(s, m).Some? && commitOk ==>
      r == LikeReport(ToggleInStore(s, currentUid.value, m), [true])
  {
    match currentUid
    case None => LikeReport(s, [false])
    case Some(uid) =>
      if !readOk || StoredLikes(s, m).None? || !commitOk then LikeReport(s, [false])
      else
        ToggleChangesStore(s, uid, m);
        LikeReport(ToggleInStore(s, uid, m), [true])
  }

  /** The correction changes only what is reported on the failure paths: both
      versions always leave the same store, and once the read and the guard
      pass they report the same single outcome. */
  lemma CorrectionKeepsSuccessPath(s: Store, currentUid: Option<string>, m: ChatMessage,
                                   readOk: bool, commitOk: bool)
    ensures LikeManagerCorrected(s, currentUid, m, readOk, commitOk).store
      == LikeManagerAsWritten(s, currentUid, m, readOk, commitOk).store
    ensures currentUid.Some? && readOk && StoredLikes(s, m).Some? ==>
      LikeManagerCorrected(s, currentUid, m, readOk, commitOk)
      == LikeManagerAsWritten(s, currentUid, m, readOk, commitOk)
  {
  }

  /** A received message, as decoded from the recipient's copy, points its like
      toggle at `messages/{fromId}/{toId}/{recipient copy id}`, a path the send
      never wrote: liking it, and asking whether it is liked, find no document. */
  lemma ReceivedCopyToggleMisses(s: Store, fromId: string, peer: Users.ChatUser, chatText: string,
                                 sentAt: int, recentAt: int, senderDocId: string, recipientDocId: string,
                                 ok: Send.WriteResults, userId: string)
    requires ok.recipientCopy
    requires peer.uid != fromId && senderDocId != recipientDocId
    requires MessagePath(fromId, peer.uid, recipientDocId) !in s.messages
    ensures var st := Send.HandleSend(s, Some(fromId), Some(peer), chatText, sentAt, recentAt,
                                      senderDocId, recipientDocId, ok).store;
      var m := Decode(recipientDocId, st.messages[MessagePath(peer.uid, fromId, recipientDocId)]);
      ToggleInStore(st, userId, m) == st && !IsLiked(st, Some(userId), m, true)
  {
    var st := Send.HandleSend(s, Some(fromId), Some(peer), chatText, sentAt, recentAt,
                              senderDocId, recipientDocId, ok).store;
    Send.SentCopiesDecode(s, fromId, peer, chatText, sentAt, recentAt, senderDocId, recipientDocId, ok);
    Send.SendWritesOnlyTheCopies(s, fromId, peer, chatText, sentAt, recentAt, senderDocId, recipientDocId, ok,
                                 MessagePath(fromId, peer.uid, recipientDocId));
    var m := Decode(recipientDocId, st.messages[MessagePath(peer.uid, fromId, recipientDocId)]);
    assert TargetPath(m) == MessagePath(fromId, peer.uid, recipientDocId);
  }

  /** A message the current user sent, decoded from their own copy, points its
      like toggle at that copy: liking it stores the like there. */
  lemma SentCopyToggleLands(s: Store, fromId: string, peer: Users.ChatUser, chatText: string,
                            sentAt: int, recentAt: int, senderDocId: string, recipientDocId: string,
                            ok: Send.WriteResults)
    requires ok.senderCopy
    ensures var st := Send.HandleSend(s, Some(fromId), Some(peer), chatText, sentAt, recentAt,
                                      senderDocId, recipientDocId, ok).store;
      var m := Decode(senderDocId, st.messages[MessagePath(fromId, peer.uid, senderDocId)]);
      StoredLikes(st, m) == Some([])
      && IsLiked(ToggleInStore(st, fromId, m), Some(fromId), m, true)
      && StoredLikes(ToggleInStore(st, fromId, m), m) == Some([fromId])
  {
    var st := Send.HandleSend(s, Some(fromId), Some(peer), chatText, sentAt, recentAt,
                              senderDocId, recipientDocId, ok).store;
    Send.SentCopiesDecode(s, fromId, peer, chatText, sentAt, recentAt, senderDocId, recipientDocId, ok);
    var p := MessagePath(fromId, peer.uid, senderDocId);
    var m := Decode(senderDocId, st.messages[p]);
    assert TargetPath(m) == p;
    assert st.messages[p] == Send.MessageRecord(fromId, peer.uid, chatText, sentAt);
    assert StoredLikes(st, m) == Some([]);
    assert Likes.Toggle([], fromId) == [fromId];
  }
}
