# Firebase_Chat messaging core in Dafny

Firebase_Chat is an iOS chat client whose screens talk straight to a hosted
document database. Its logic is the small amount of data handling inside the
database callbacks. This project restates that handling as pure functions over
an abstract store and proves what it guarantees:

- **Record decoding** (`Firestore`, `Users`, `ChatMessages`, `MainMessages`).
  `ChatUser`, `ChatMessage` and `RecentMessage` are built from `[String: Any]`
  dictionaries. A missing key, or a value of the wrong type, falls back to `""`
  or `[]`. A dictionary is a `map<string, Value>`. `Value` separates strings,
  arrays, timestamps and anything else, so `as? [String]` succeeds only on an
  array whose elements are all strings.
- **Sending** (`Send`). `handleSend` writes one record into
  `messages/{from}/{to}` and into `messages/{to}/{from}`. Only after the
  sender's copy is saved does `persistRecentMessage` upsert
  `recent_messages/{from}/messages/{to}`. The store is a pair of path-keyed
  maps. Each write's success is an input flag.
- **Liking** (`Likes`, `LikeService`). The toggle on the `likes` array removes
  every occurrence of the user, or appends the user. It runs inside
  `ChatLogViewModel.likeMessage` (read, then write) and inside
  `LikeManager.likeMessage` (a transaction). `LikeManager.isLiked` reads the
  same document.
- **The chat-log feed** (`ChatMessages.HandleSnapshot`). Only `.added` changes
  are appended, in snapshot order.
- **The recent-messages list** (`MainMessages`). Every document change removes
  the first entry with the same document id and inserts the new entry at the
  front.
- **The navigation bar** (`NavBar`). It shows the user's email with every
  `@gmail.com` removed.

Behaviours worth noting:

- A send updates the recent index only for the sender, never the recipient.
- Likes are an array with `removeAll`/`append`, not a set.
- The recent list is kept by move-to-front, not by sorting on timestamps.
- The like toggle targets the path built from the message's own `fromId` and
  `toId`.

## Model

| member | source | states |
|---|---|---|
| Firestore.AsStrings | Firebase_Chat/MainMessages/Chat/ChatLogView.swift:15 | the `as? [String]` cast succeeds exactly when every array element is a string, and then yields those strings in order |
| Firestore.FromStrings | Firebase_Chat/MainMessages/Chat/ChatLogView.swift:161 | a string array written to a document reads back as the same strings |
| Users.Decode | Model/ChatUser.swift:15-19 | `uid`, `email` and `profileImageUrl` are the string values under those exact keys, and `""` when a key is missing or not a string |
| Users.DecodedIdIsUid | Model/ChatUser.swift:11 | a decoded user's id is the stored uid, or `""` without one |
| Users.AccountRecord | Firebase_Chat/ContentView.swift:156-160 | the document written at account creation holds exactly the keys `email`, `uid` and `profileImageUrl`, each a string |
| Users.DecodeAccountRecord | Firebase_Chat/ContentView.swift:156-160 | decoding the document written at account creation returns the email, uid and picture URL written |
| Users.DecodeIgnoresOtherKeys | Model/ChatUser.swift:15-19 | adding or changing any key other than the three leaves the decoded user unchanged |
| ChatMessages.Decode | Firebase_Chat/MainMessages/Chat/ChatLogView.swift:10-16 | `fromId`, `toId` and `text` are the string values when present, else `""`; `likes` is the string array when the cast succeeds, else `[]`; the document id is kept |
| ChatMessages.AddedMessages | Firebase_Chat/MainMessages/Chat/ChatLogView.swift:59-63 | a snapshot contributes no more messages than it has changes, and each message it contributes is the decoding of one of its `.added` changes; with `ChatMessages.AddedMessagesConcat`, `ChatMessages.AddedMessagesWithoutAdded` and `ChatMessages.AddedMessagesAllAdded` this pins down exactly the `.added` changes, decoded, in order |
| ChatMessages.AddedMessagesConcat | Firebase_Chat/MainMessages/Chat/ChatLogView.swift:59-64 | the messages two consecutive change lists contribute are those of each list, concatenated in order |
| ChatMessages.AddedMessagesWithoutAdded | Firebase_Chat/MainMessages/Chat/ChatLogView.swift:60 | modified and removed changes contribute nothing to the chat log |
| ChatMessages.AddedMessagesAllAdded | Firebase_Chat/MainMessages/Chat/ChatLogView.swift:59-63 | a snapshot of added changes contributes each decoded document, one per change, in snapshot order |
| ChatMessages.HandleSnapshot | Firebase_Chat/MainMessages/Chat/ChatLogView.swift:59-64 | the snapshot handler leaves the existing messages untouched as a prefix and appends the added changes after them |
| Likes.RemoveAll | Firebase_Chat/MainMessages/Chat/ChatLogView.swift:157 | removal leaves no occurrence of the user, keeps every other user's occurrences with their counts, and adds nothing |
| Likes.RemoveAllIsSubsequence | Firebase_Chat/MainMessages/Chat/ChatLogView.swift:351 | the entries removal keeps stay in their original relative order |
| Likes.Toggle | Firebase_Chat/MainMessages/Chat/ChatLogView.swift:154-160 | a toggle flips the user's membership and no one else's; an absent user is appended at the end; a present user loses every occurrence while the other counts stay |
| Likes.ToggleOffKeepsOrder | Firebase_Chat/MainMessages/Chat/ChatLogView.swift:350-351 | unliking keeps all other entries, with their multiplicities, in relative order |
| Likes.ToggleKeepsNoDup | Firebase_Chat/MainMessages/Chat/ChatLogView.swift:154-160 | a duplicate-free like list stays duplicate-free |
| Likes.ToggleTwiceFromAbsent | Firebase_Chat/MainMessages/Chat/ChatLogView.swift:350-354 | like followed by unlike, from not liked, gives back exactly the original list |
| Likes.ToggleTimesFromAbsent | Firebase_Chat/MainMessages/Chat/ChatLogView.swift:350-354 | after n toggles by a user who was absent, the user is a liker exactly when n is odd; the list alternates between the original and the original with the user appended |
| Likes.ToggleAllMembership | Firebase_Chat/MainMessages/Chat/ChatLogView.swift:350-354 | after any interleaving of toggles by several users, a user is a liker exactly when they were one before XOR they toggled an odd number of times |
| Send.MessageRecord | Firebase_Chat/MainMessages/Chat/ChatLogView.swift:81 | the message document carries the send time, and decodes, under any document id, to the sender, recipient and text given, with no likes |
| Send.RecentRecord | Firebase_Chat/MainMessages/Chat/ChatLogView.swift:119-126 | the recent-message document, read back under the partner's uid as its id, gives the text, sender, partner uid, partner email and picture, and the time written, whatever the clock reads then |
| Send.HandleSend | Firebase_Chat/MainMessages/Chat/ChatLogView.swift:71-106 | without a signed-in user or a partner nothing changes; each successful copy write stores exactly the message record with the send time at its path; a saved sender copy with a saved recent write stores exactly the recent record with its own time at the sender's entry for the partner; the input is cleared when the sender's copy is saved and kept as typed otherwise |
| Send.SentCopiesDecode | Firebase_Chat/MainMessages/Chat/ChatLogView.swift:76-105 | each saved copy reads back as the message sent: sender, recipient and text as given, and no likes |
| Send.SendWritesOnlyTheCopies | Firebase_Chat/MainMessages/Chat/ChatLogView.swift:76-105 | a send changes message documents only at the two copies' paths, and each only when its own write succeeds |
| Send.SendTouchesOnlySenderRecent | Firebase_Chat/MainMessages/Chat/ChatLogView.swift:83-135 | the recent index changes only at the sender's entry for the partner, only when the sender's copy and the recent write both succeed, and then holds exactly the recent record: the text, the ids, the partner's email and picture, and the recent write's time |
| Send.SendLeavesRecipientRecent | Firebase_Chat/MainMessages/Chat/ChatLogView.swift:108-128 | a send never touches any recent entry of the recipient |
| LikeService.TargetPath | Firebase_Chat/MainMessages/Chat/ChatLogView.swift:139-143 | both like actions and `isLiked` address `messages/{fromId}/{toId}/{documentId}` built from the message's own fields, not from the signed-in user |
| LikeService.StoredLikes | Firebase_Chat/MainMessages/Chat/ChatLogView.swift:345-348 | the guard of both like actions passes exactly when the target document exists and its `likes` is a string array |
| LikeService.ToggleInStore | Firebase_Chat/MainMessages/Chat/ChatLogView.swift:139-161 | a committed toggle changes only the `likes` field of the document at `(fromId, toId, documentId)`; no other document and no recent entry changes; a failed guard leaves the store unchanged |
| LikeService.ToggleChangesStore | Firebase_Chat/MainMessages/Chat/ChatLogView.swift:350-355 | when the guard passes, a toggle always changes the stored document |
| LikeService.IsLiked | Firebase_Chat/MainMessages/Chat/ChatLogView.swift:369-394 | false without a signed-in user, on a failed read, or when the document is missing or has no string-array `likes`; otherwise whether the user is among the likes; true only when the document exists |
| LikeService.ToggleFlipsIsLiked | Firebase_Chat/MainMessages/Chat/ChatLogView.swift:369-394 | after a toggle `isLiked` reports the negation of its earlier answer; where the guard fails the toggle is a no-op and `isLiked` reports false |
| LikeService.ToggleKeepsOthersLiked | Firebase_Chat/MainMessages/Chat/ChatLogView.swift:388-393 | a toggle does not change what `isLiked` reports for any other user |
| LikeService.LikeMessage | Firebase_Chat/MainMessages/Chat/ChatLogView.swift:137-170 | the non-transactional like changes the store only when a user is signed in and both the read and the write succeed, and then commits the toggle |
| LikeService.LikeManagerAsWritten | Firebase_Chat/MainMessages/Chat/ChatLogView.swift:323-367 | the transactional like reports a single false without a user; when the read or the guard fails it reports false and then the commit's outcome, with the store unchanged; when the read and the guard pass it reports the commit's outcome once, and a successful commit stores the toggle |
| LikeService.AsWrittenReportsSuccessWithoutChange | Firebase_Chat/MainMessages/Chat/ChatLogView.swift:345-365 | when the guard fails and the empty transaction commits, the completion gets false and then true, and nothing is stored |
| LikeService.LikeManagerCorrected | Firebase_Chat/MainMessages/Chat/ChatLogView.swift:323-367 | with the guard ending the action, the completion is called once, with true exactly when the stored likes changed; when the read, the guard and the commit succeed it stores the toggle and reports true |
| LikeService.CorrectionKeepsSuccessPath | Firebase_Chat/MainMessages/Chat/ChatLogView.swift:323-367 | the corrected and the as-written action always leave the same store, and once the read and the guard pass they report the same single outcome, so the correction changes only the failure reports |
| LikeService.ReceivedCopyToggleMisses | Firebase_Chat/MainMessages/Chat/ChatLogView.swift:329-348 | a received message, decoded from the recipient's copy, points its toggle at a path the send never wrote; liking it changes nothing and `isLiked` reports false |
| LikeService.SentCopyToggleLands | Firebase_Chat/MainMessages/Chat/ChatLogView.swift:139-160 | the sender liking their own sent message stores exactly `[sender]` in that copy, and `isLiked` then reports true |
| MainMessages.Decode | Firebase_Chat/MainMessages/MainMessagesView.swift:24-32 | each text field of a recent entry is the string value under its key, else `""`; the timestamp is the stored one, else the current clock reading |
| MainMessages.FirstIndex | Firebase_Chat/MainMessages/MainMessagesView.swift:72-74 | finds the first entry with the document id, or none exactly when no entry has it |
| MainMessages.Without | Firebase_Chat/MainMessages/MainMessagesView.swift:72-76 | removing the entry for a document id shortens the list by one when the id is listed and leaves it unchanged otherwise |
| MainMessages.WithoutRemovesFirst | Firebase_Chat/MainMessages/MainMessagesView.swift:72-76 | the entry removed is the first one with the document id, as `firstIndex` finds it; the entries before and after it keep their places |
| MainMessages.WithoutKeepsOthers | Firebase_Chat/MainMessages/MainMessagesView.swift:72-76 | removal drops one entry exactly when the id is listed; every entry with another id survives in relative order; nothing new appears |
| MainMessages.Reconcile | Firebase_Chat/MainMessages/MainMessagesView.swift:69-79 | after a change for id d the head is the decoded document for d; the list grows by one when d was absent and keeps its length when d was present |
| MainMessages.ReconcileKeepsOthers | Firebase_Chat/MainMessages/MainMessagesView.swift:72-78 | behind the new head the other entries keep their relative order, every entry for another document survives, and no entry appears that was not listed |
| MainMessages.ReconcileKeepsDocuments | Firebase_Chat/MainMessages/MainMessagesView.swift:69-78 | every listed document stays listed, and the changed document is listed |
| MainMessages.ReconcileKeepsUniqueIds | Firebase_Chat/MainMessages/MainMessagesView.swift:72-78 | a list without duplicate document ids has none after a change |
| MainMessages.ReconcileKeepsNewestFirst | Firebase_Chat/MainMessages/MainMessagesView.swift:61-78 | a list ordered newest first stays so when the changed entry is at least as new as every listed one |
| MainMessages.ReconcileIgnoresKind | Firebase_Chat/MainMessages/MainMessagesView.swift:69-78 | added, modified and removed changes are handled identically; a removal also reinserts its document at the front |
| MainMessages.ApplyChanges | Firebase_Chat/MainMessages/MainMessagesView.swift:69-82 | a snapshot, each change decoded with its own clock reading, never shrinks the list, grows it by at most one entry per change, and leaves the last change's decoded document at the front |
| MainMessages.ApplyFreshBatch | Firebase_Chat/MainMessages/MainMessagesView.swift:69-82 | a batch of distinct, not yet listed documents ends up at the front, ahead of the old entries, in reverse batch order |
| MainMessages.ApplyFreshBatchNewestFirst | Firebase_Chat/MainMessages/MainMessagesView.swift:61-82 | a fresh batch delivered in ascending timestamp order, over a newest-first list no newer than any of it, leaves the whole list newest first |
| MainMessages.HandleRecentSnapshot | Firebase_Chat/MainMessages/MainMessagesView.swift:69-82 | after a snapshot every changed document is listed, the last change is at the head, and unique ids stay unique |
| NavBar.RemoveGmail | Firebase_Chat/MainMessages/MainMessagesView.swift:190 | deleting every `@gmail.com` never lengthens the string |
| NavBar.RemoveGmailUnchangedIff | Firebase_Chat/MainMessages/MainMessagesView.swift:190 | an email without `@gmail.com` is shown unchanged; one containing it is shown shorter |
| NavBar.RemoveGmailAddress | Firebase_Chat/MainMessages/MainMessagesView.swift:190 | `local@gmail.com` with no `@` in `local` is shown as `local` |
| NavBar.RemoveGmailFirstOccurrence | Firebase_Chat/MainMessages/MainMessagesView.swift:190 | in `a + "@gmail.com" + b` with no occurrence in `a`, the first occurrence is deleted, `a` is kept and `b` is processed the same way; with `NavBar.RemoveGmailUnchangedIff` this determines the whole left-to-right pass |
| NavBar.DisplayEmail | Firebase_Chat/MainMessages/MainMessagesView.swift:190 | no user shows `""`; otherwise the email with every `@gmail.com` deleted by the left-to-right pass that `NavBar.RemoveGmailUnchangedIff` and `NavBar.RemoveGmailFirstOccurrence` pin down, so an email without it is shown as it is and one with it is shown shorter |

## Findings

| source | as written | input that shows it | evidently intended | confidence | as-written member | corrected member |
|---|---|---|---|---|---|---|
| Firebase_Chat/MainMessages/Chat/ChatLogView.swift:345-365 | when the guard fails, the transaction block calls `completion(false)` and returns nil without setting the error pointer; the transaction commits with no writes and the outer closure then calls `completion(true)` | any message whose target document is missing or has no string-array `likes`, with a commit that succeeds (every received message is such a message, see `LikeService.ReceivedCopyToggleMisses`): the completions are false then true, and `MessageView` shows the message as liked although nothing was stored | a failed guard ends the action with a single `completion(false)` | medium; not executed | LikeService.AsWrittenReportsSuccessWithoutChange | LikeService.LikeManagerCorrected |

## Left out

- Firebase SDK plumbing (`FirebaseManager`, authentication, storage, the Firestore client) is foreign code. The signed-in uid is an `Option<string>` parameter. Read, write and commit outcomes are boolean parameters.
- Auto-generated document ids and clock readings (`Timestamp()`, `Date()`) are parameters. A timestamp is an opaque integer.
- Snapshot listeners, `DispatchQueue` hops and the `count` scroll trigger are asynchronous delivery. The model takes a snapshot's `documentChanges` as a sequence in delivery order.
- `order(by: "timestamp")` is a server-side query. Snapshot order is an input, and `MainMessages.ApplyFreshBatchNewestFirst` states what ascending input gives.
- `runTransaction` atomicity, conflict detection and retries (re-running the update block) are SDK behaviour. A transaction is one read-modify-write that commits or fails.
- Send.HandleSend: `persistRecentMessage` reads the view model's `chatText` when the sender write completes. The model assumes it still holds the sent text, because edits between the tap and the callback are UI concurrency.
- The three `ChatMessage`, `RecentMessage` and `ChatUser` `id` properties are the datatypes' `Id()` members.
- The `timestamp` written with each message is not read back into `ChatMessage`, because the client drops it there too.
- Error-message strings, `print` calls and the `errorMessage` fields are not modelled. A failure shows up only as an unchanged store.
- Login, sign-up, image picking and upload, sign-out and `fetchCurrentUser`'s read are UI and I/O. The decoding that `fetchCurrentUser` performs is `Users.Decode`.
- Likes.Toggle: tests membership by comparing strings as sequences of characters, while Swift's `contains` (ChatLogView.swift:156 and :350) treats canonically equivalent strings (a precomposed and a decomposed `é`) as equal; uids are ASCII in practice, so the model leaves Unicode normalisation out.
- Likes.RemoveAll: removes entries equal to the user as character sequences, while Swift's `removeAll { $0 == uid }` (ChatLogView.swift:157 and :351) also removes canonically equivalent strings; uids are ASCII in practice.
- LikeService.IsLiked: tests membership as character sequences, while Swift's `contains` (ChatLogView.swift:393) treats canonically equivalent strings as equal; uids are ASCII in practice.
- MainMessages.FirstIndex: compares document ids as character sequences, while Swift's `rm.documentId == docId` (MainMessagesView.swift:73) treats canonically equivalent ids as equal, so an entry listed as `"\u{e9}"` and a change for `"e\u{301}"` are one document in Swift and two here; `MainMessages.Without` and `MainMessages.Reconcile` inherit the difference. The ids are Firebase uids, which are ASCII in practice, so the model leaves Unicode normalisation out.
- NavBar.RemoveGmail matches `@gmail.com` character by character, while `replacingOccurrences(of:with:)` without options also matches canonically equivalent text; the model leaves Unicode normalisation out here too.
- `formattedDate`, SwiftUI view bodies and the `liked` state of `MessageView` are presentation. The completions that drive `liked` are modelled.
