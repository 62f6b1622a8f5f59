/** The part of the document database the chat screens see: field values as the
    client's casts see them, documents as dictionaries, the two collections the
    chat screens write, and the document changes a snapshot listener delivers. */
module Firestore {

  /** A field value. `as? String` succeeds only on `Str`; `as? [String]` succeeds
      only on an `Arr` whose every element is a `Str`; `as? Timestamp` only on
      `Stamp`. A timestamp is an opaque ordered value. */
  datatype Value = Str(s: string) | Arr(elems: seq<Value>) | Stamp(t: int) | Other

  /** A document's data, a `[String: Any]` dictionary in the client. */
  type Dict = map<string, Value>

  datatype Option<T> = None | Some(value: T)

  /** The strings of an array, or None as soon as one element is not a string. */
  function AsStrings(vs: seq<Value>): (r: Option<seq<string>>)
    ensures r.Some? <==> forall i :: 0 <= i < |vs| ==> vs[i].Str?
    ensures r.Some? ==> |r.value| == |vs| && forall i :: 0 <= i < |vs| ==> r.value[i] == vs[i].s
  {
    if |vs| == 0 then Some([])
    else if !vs[0].Str? then None
    else match AsStrings(vs[1..])
      case None => None
      case Some(rest) => Some([vs[0].s] + rest)
  }

  /** The array a client writes for a `[String]`; reading it back gives the same strings. */
  function FromStrings(ss: seq<string>): (r: seq<Value>)
    ensures AsStrings(r) == Some(ss)
  {
    var r := seq(|ss|, i requires 0 <= i < |ss| => Str(ss[i]));
    assert AsStrings(r).value == ss;
    r
  }

  /** `data[key] as? String` succeeds. */
  predicate HasString(d: Dict, key: string) {
    key in d && d[key].Str?
  }

  /** `data[key] as? [String]` succeeds. */
  predicate HasStringList(d: Dict, key: string) {
    key in d && d[key].Arr? && forall i :: 0 <= i < |d[key].elems| ==> d[key].elems[i].Str?
  }

  /** `data[key] as? String ?? ""` */
  function StringField(d: Dict, key: string): string {
    if key in d && d[key].Str? then d[key].s else ""
  }

  /** `data[key] as? [String]`, keeping a failed cast apart from an empty list. */
  function StringListOf(d: Dict, key: string): (r: Option<seq<string>>)
    ensures r.Some? <==> HasStringList(d, key)
  {
    if key in d && d[key].Arr? then AsStrings(d[key].elems) else None
  }

  /** `data[key] as? [String] ?? []` */
  function StringListField(d: Dict, key: string): seq<string> {
    match StringListOf(d, key)
    case Some(ss) => ss
    case None => []
  }

  /** `messages/{owner}/{peer}/{docId}`: one copy of a message in owner's log with peer. */
  datatype MessagePath = MessagePath(owner: string, peer: string, docId: string)

  /** `recent_messages/{owner}/messages/{peer}`: owner's latest-message entry for peer. */
  datatype RecentPath = RecentPath(owner: string, peer: string)

  /** The documents of both collections, keyed by path. */
  datatype Store = Store(messages: map<MessagePath, Dict>, recent: map<RecentPath, Dict>)

  /** The kind of a document change a snapshot listener reports. */
  datatype ChangeKind = Added | Modified | Removed

  /** One entry of `documentChanges`: its kind, document id and data. */
  datatype DocumentChange = DocumentChange(kind: ChangeKind, docId: string, data: Dict)
}
