/** The email shown in the navigation bar of the main screen: the signed-in
    user's email with every `@gmail.com` removed. */
module NavBar {
  import opened Firestore
  import Users

  /** The suffix the navigation bar strips from the signed-in user's email. */
  const GmailSuffix: string := "@gmail.com"

  /** `s` contains `p` at index `i`. */
  predicate OccursAt(s: string, p: string, i: nat) {
    i + |p| <= |s| && s[i..i + |p|] == p
  }

  /** `s` contains `p` somewhere. */
  predicate Occurs(s: string, p: string) {
    exists i :: 0 <= i <= |s| - |p| && OccursAt(s, p, i)
  }

  /** `replacingOccurrences(of: "@gmail.com", with: "")`: one left-to-right
      pass deleting each non-overlapping occurrence. */
  function RemoveGmail(s: string): (r: string)
    ensures |r| <= |s|
    decreases |s|
  {
    if |s| < |GmailSuffix| then s
    else if s[..|GmailSuffix|] == GmailSuffix then RemoveGmail(s[|GmailSuffix|..])
    else [s[0]] + RemoveGmail(s[1..])
  }

  /** An email without the suffix is shown as it is; one with it is shortened. */
  lemma {:induction false} RemoveGmailUnchangedIff(s: string)
    ensures !Occurs(s, GmailSuffix) ==> RemoveGmail(s) == s
    ensures Occurs(s, GmailSuffix) ==> |RemoveGmail(s)| < |s|
    decreases |s|
  {
    if |s| < |GmailSuffix| {
    } else if s[..|GmailSuffix|] == GmailSuffix {
      assert OccursAt(s, GmailSuffix, 0);
    } else {
      RemoveGmailUnchangedIff(s[1..]);
      assert RemoveGmail(s) == [s[0]] + RemoveGmail(s[1..]);
      if Occurs(s, GmailSuffix) {
        var i :| 0 <= i <= |s| - |GmailSuffix| && OccursAt(s, GmailSuffix, i);
        assert i != 0;
        TailOccurrence(s, i - 1);
      } else {
        NoOccurrenceInTail(s);
        assert s == [s[0]] + s[1..];
      }
    }
  }

  /** An address `local@gmail.com` whose local part has no `@` is shown as `local`. */
  lemma {:induction false} RemoveGmailAddress(local: string)
    requires '@' !in local
    ensures RemoveGmail(local + GmailSuffix) == local
    decreases |local|
  {
    var s := local + GmailSuffix;
    if |local| == 0 {
      assert s == GmailSuffix;
      assert s[|GmailSuffix|..] == "";
    } else {
      assert s[0] == local[0] && local[0] != '@';
      assert s[..|GmailSuffix|] != GmailSuffix by {
        assert s[..|GmailSuffix|][0] == s[0];
      }
      assert s[1..] == local[1..] + GmailSuffix;
      RemoveGmailAddress(local[1..]);
      assert local == [local[0]] + local[1..];
    }
  }

  /** A string without the suffix has none after its first character either. */
  lemma NoOccurrenceInTail(a: string)
    requires |a| > 0 && !Occurs(a, GmailSuffix)
    ensures !Occurs(a[1..], GmailSuffix)
  {
    forall i | 0 <= i <= |a[1..]| - |GmailSuffix|
      ensures !OccursAt(a[1..], GmailSuffix, i)
    {
      TailOccurrence(a, i);
    }
  }

  /** An occurrence after the first character is an occurrence one further on. */
  lemma TailOccurrence(a: string, i: nat)
    requires |a| > 0
    ensures OccursAt(a[1..], GmailSuffix, i) <==> OccursAt(a, GmailSuffix, i + 1)
  {
    if i + |GmailSuffix| <= |a[1..]| {
      assert a[1..][i..i + |GmailSuffix|] == a[i + 1..i + 1 + |GmailSuffix|];
    }
  }

  /** Only the first character of the suffix is an `@`, so no occurrence
      starts inside a nonempty occurrence-free prefix and runs into the suffix. */
  lemma NoOccurrenceAcrossBoundary(a: string, b: string)
    requires |a| > 0 && !Occurs(a, GmailSuffix)
    ensures (a + GmailSuffix + b)[..|GmailSuffix|] != GmailSuffix
  {
    var n := |GmailSuffix|;
    var s := a + GmailSuffix + b;
    if |a| >= n {
      assert s[..n] == a[..n];
      assert !OccursAt(a, GmailSuffix, 0);
    } else {
      assert s[|a|] == '@';
      assert s[..n][|a|] == s[|a|];
      assert GmailSuffix[|a|] != '@';
    }
  }

  /** The first occurrence is deleted and the rest processed the same way:
      together with `RemoveGmailUnchangedIff` this pins down the whole pass. */
  lemma {:induction false} RemoveGmailFirstOccurrence(a: string, b: string)
    requires !Occurs(a, GmailSuffix)
    ensures RemoveGmail(a + GmailSuffix + b) == a + RemoveGmail(b)
    decreases |a|
  {
    var n := |GmailSuffix|;
    var s := a + GmailSuffix + b;
    if |a| == 0 {
      assert s == GmailSuffix + b;
      assert s[..n] == GmailSuffix && s[n..] == b;
    } else {
      NoOccurrenceAcrossBoundary(a, b);
      assert RemoveGmail(s) == [s[0]] + RemoveGmail(s[1..]);
      NoOccurrenceInTail(a);
      assert s[1..] == a[1..] + GmailSuffix + b;
      RemoveGmailFirstOccurrence(a[1..], b);
      assert s[0] == a[0];
      assert a == [a[0]] + a[1..];
    }
  }

  /** The email in the navigation bar: the signed-in user's email with every
      `@gmail.com` removed, or `""` before the user is loaded. */
  function DisplayEmail(user: Option<Users.ChatUser>): (r: string)
    ensures user.None? ==> r == ""
    ensures user.Some? ==> r == RemoveGmail(user.value.email)
    ensures user.Some? && !Occurs(user.value.email, GmailSuffix) ==> r == user.value.email
    ensures user.Some? && Occurs(user.value.email, GmailSuffix) ==> |r| < |user.value.email|
  {
    match user
    case None => ""
    case Some(u) =>
      RemoveGmailUnchangedIff(u.email);
      RemoveGmail(u.email)
  }
}
