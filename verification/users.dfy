/** The signed-in user's and the chat partner's profile, `ChatUser` in the client,
    decoded from a document of the `users` collection. */
module Users {
  import opened Firestore

  datatype ChatUser = ChatUser(uid: string, email: string, profileImageUrl: string)
  {
    /** The `Identifiable` id of a user. */
    function Id(): string { uid }
  }

  /** `ChatUser(data:)`: each field is the string under the key of the same
      name, or `""` when the key is missing or holds something else. */
  function Decode(data: Dict): (u: ChatUser)
    ensures HasString(data, "uid") ==> u.uid == data["uid"].s
    ensures !HasString(data, "uid") ==> u.uid == ""
    ensures HasString(data, "email") ==> u.email == data["email"].s
    ensures !HasString(data, "email") ==> u.email == ""
    ensures HasString(data, "profileImageUrl") ==> u.profileImageUrl == data["profileImageUrl"].s
    ensures !HasString(data, "profileImageUrl") ==> u.profileImageUrl == ""
  {
    ChatUser(StringField(data, "uid"), StringField(data, "email"), StringField(data, "profileImageUrl"))
  }

  /** A decoded user's id is the uid stored in its document, `""` without one. */
  lemma DecodedIdIsUid(data: Dict)
    ensures HasString(data, "uid") ==> Decode(data).Id() == data["uid"].s
    ensures !HasString(data, "uid") ==> Decode(data).Id() == ""
  {
  }

  /** The document written under `users/{uid}` when an account is created. */
  function AccountRecord(email: string, uid: string, profileImageUrl: string): (r: Dict)
    ensures r.Keys == {"email", "uid", "profileImageUrl"}
    ensures forall k :: k in r ==> r[k].Str?
  {
    map["email" := Str(email), "uid" := Str(uid), "profileImageUrl" := Str(profileImageUrl)]
  }

  /** Reading back the account document gives the three values written. */
  lemma DecodeAccountRecord(email: string, uid: string, profileImageUrl: string)
    ensures Decode(AccountRecord(email, uid, profileImageUrl)) == ChatUser(uid, email, profileImageUrl)
  {
  }

  /** Keys other than the three a user reads do not affect the decoded user. */
  lemma DecodeIgnoresOtherKeys(data: Dict, key: string, v: Value)
    requires key != "uid" && key != "email" && key != "profileImageUrl"
    ensures Decode(data[key := v]) == Decode(data)
  {
  }
}
