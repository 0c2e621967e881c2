/**
 * `createComment`: stores a comment on a task, logs it as a `comment` audit
 * row, mails every user named by an `@name` mention, and records one
 * attachment per uploaded file.
 */
module TaskComments {
  import opened Common
  import opened Text
  import opened Schema

  // ---------------------------------------------------------------------------
  // Mentions
  // ---------------------------------------------------------------------------

  /** The longest prefix of `s` made of word characters. */
  function WordPrefix(s: string): (r: string)
    ensures |r| <= |s| && forall i :: 0 <= i < |r| ==> r[i] == s[i]
    ensures forall i :: 0 <= i < |r| ==> IsWordChar(r[i])
    ensures |r| < |s| ==> !IsWordChar(s[|r|])
  {
    if s == [] || !IsWordChar(s[0]) then []
    else [s[0]] + WordPrefix(s[1..])
  }

  /**
   * `preg_match_all('/@(\w+)/', $s)[1]`: scanning left to right, an `@`
   * followed by a word character captures the whole run of word characters
   * after it, and the scan resumes after that run.
   */
  function Mentions(s: string): (r: seq<string>)
    ensures forall k :: 0 <= k < |r| ==> |r[k]| > 0 && forall i :: 0 <= i < |r[k]| ==> IsWordChar(r[k][i])
    decreases |s|
  {
    if |s| < 2 then []
    else if s[0] == '@' && IsWordChar(s[1]) then
      var w := WordPrefix(s[1..]);
      [w] + Mentions(s[1 + |w|..])
    else Mentions(s[1..])
  }

  /** A name holding anything but letters, digits and `_` (a space, say) is never mentioned. */
  lemma NameWithOtherCharNeverMentioned(s: string, name: string, j: nat)
    requires j < |name| && !IsWordChar(name[j])
    ensures name !in Mentions(s)
  {
  }

  /** A run of word characters ends where the next character is not one. */
  lemma {:induction false} WordPrefixOf(w: string, rest: string)
    requires forall i :: 0 <= i < |w| ==> IsWordChar(w[i])
    requires rest == [] || !IsWordChar(rest[0])
    ensures WordPrefix(w + rest) == w
  {
    if w != [] {
      assert (w + rest)[1..] == w[1..] + rest;
      WordPrefixOf(w[1..], rest);
    } else {
      assert w + rest == rest;
    }
  }

  /** Text without an `@` contributes no mention. */
  lemma {:induction false} MentionsSkip(p: string, rest: string)
    requires forall i :: 0 <= i < |p| ==> p[i] != '@'
    ensures Mentions(p + rest) == Mentions(rest)
    decreases |p|
  {
    if p != [] {
      assert (p + rest)[1..] == p[1..] + rest;
      MentionsSkip(p[1..], rest);
    } else {
      assert p + rest == rest;
    }
  }

  /** `@` followed by a maximal run of word characters is captured, and the scan goes on after the run. */
  lemma MentionsTake(w: string, rest: string)
    requires |w| > 0 && forall i :: 0 <= i < |w| ==> IsWordChar(w[i])
    requires rest == [] || !IsWordChar(rest[0])
    ensures Mentions(['@'] + w + rest) == [w] + Mentions(rest)
  {
    var t := w + rest;
    var s := ['@'] + t;
    assert s == ['@'] + w + rest;
    assert s[1..] == t;
    WordPrefixOf(w, rest);
    assert s[1 + |w|..] == rest;
    MentionsAtSign(s);
  }

  /** One step of the scan at an `@` that starts a mention. */
  lemma MentionsAtSign(s: string)
    requires |s| >= 2 && s[0] == '@' && IsWordChar(s[1])
    ensures Mentions(s) == [WordPrefix(s[1..])] + Mentions(s[1 + |WordPrefix(s[1..])|..])
  {
  }

  /**
   * A worked case: "@a please check @b, @a" mentions a, b and a again, the
   * comma ending the second name; the repeat is dropped by `array_unique`.
   */
  lemma MentionsExample(a: string, b: string)
    requires |a| > 0 && forall i :: 0 <= i < |a| ==> IsWordChar(a[i])
    requires |b| > 0 && forall i :: 0 <= i < |b| ==> IsWordChar(b[i])
    ensures Mentions(['@'] + a + (" please check " + (['@'] + b + (", " + (['@'] + a + []))))) == [a, b, a]
  {
    var r3 := ['@'] + a + [];
    var r2 := ", " + r3;
    var r1 := ['@'] + b + r2;
    var r0 := " please check " + r1;
    MentionsTake(a, []);
    assert Mentions([]) == [];
    MentionsSkip(", ", r3);
    MentionsTake(b, r2);
    MentionsSkip(" please check ", r1);
    MentionsTake(a, r0);
  }

  // ---------------------------------------------------------------------------
  // Notifications
  // ---------------------------------------------------------------------------

  /** `User::whereIn('name', $names)->get()`: matching users in table order (exact comparison). */
  function NamedUsers(users: seq<User>, names: seq<string>): seq<User> {
    if users == [] then []
    else (if users[0].name in names then [users[0]] else []) + NamedUsers(users[1..], names)
  }

  /** The query returns each user whose name is asked for, as often as the table holds it, and nobody else. */
  lemma {:induction false} NamedUsersSpec(users: seq<User>, names: seq<string>)
    ensures forall u :: multiset(NamedUsers(users, names))[u] == if u.name in names then multiset(users)[u] else 0
    ensures forall u :: u in NamedUsers(users, names) <==> u in users && u.name in names
  {
    if users != [] {
      NamedUsersSpec(users[1..], names);
      assert users == [users[0]] + users[1..];
    }
  }

  /** `$user->email && $user->id !== Auth::id()`. */
  predicate Notifiable(u: User, actor: Option<Id>) {
    Truthy(u.email) && (actor.None? || u.id != actor.value)
  }

  function MentionMail(u: User, taskId: Id, commentId: Id, actor: Option<Id>): Mail {
    CommentMentioned(u.email, taskId, commentId, actor)
  }

  /** The mails the `foreach ($users ...)` loop sends, in the order of `us`. */
  function MentionMails(us: seq<User>, taskId: Id, commentId: Id, actor: Option<Id>): (r: seq<Mail>)
    ensures |r| <= |us|
  {
    if us == [] then []
    else
      MentionMails(us[..|us| - 1], taskId, commentId, actor)
      + (if Notifiable(us[|us| - 1], actor) then [MentionMail(us[|us| - 1], taskId, commentId, actor)] else [])
  }

  /** Each mail goes to one of the listed users who has an email and is not the author. */
  lemma {:induction false} MentionMailsSpec(us: seq<User>, taskId: Id, commentId: Id, actor: Option<Id>, m: Mail)
    ensures m in MentionMails(us, taskId, commentId, actor) <==>
      exists u :: u in us && Notifiable(u, actor) && m == MentionMail(u, taskId, commentId, actor)
  {
    if us != [] {
      var init := us[..|us| - 1];
      MentionMailsSpec(init, taskId, commentId, actor, m);
      assert forall u :: u in us <==> u in init || u == us[|us| - 1];
    }
  }

  /**
   * The recipients are the users named by some mention, who have an email and
   * are not the author; repeating a mention adds no recipient (the query sees
   * each name once).
   */
  lemma MentionRecipients(users: seq<User>, content: string, taskId: Id, commentId: Id, actor: Option<Id>, m: Mail)
    ensures m in MentionMails(NamedUsers(users, Distinct(Mentions(content))), taskId, commentId, actor) <==>
      exists u :: u in users && u.name in Mentions(content) && Notifiable(u, actor)
        && m == MentionMail(u, taskId, commentId, actor)
    ensures NamedUsers(users, Distinct(Mentions(content))) == NamedUsers(users, Mentions(content))
  {
    var names := Distinct(Mentions(content));
    NamedUsersSpec(users, names);
    MentionMailsSpec(NamedUsers(users, names), taskId, commentId, actor, m);
    NamedUsersSameNames(users, names, Mentions(content));
  }

  /** No two users share an email address: the unique index of the users table. */
  predicate EmailsUnique(us: seq<User>) {
    forall i, j :: 0 <= i < j < |us| ==> us[i].email != us[j].email
  }

  /**
   * With unique emails, every user named by some mention who has an email and
   * is not the author receives exactly one mail, however often the name is
   * mentioned.
   */
  lemma MentionedUserMailedOnce(users: seq<User>, content: string, taskId: Id, commentId: Id, actor: Option<Id>, u: User)
    requires EmailsUnique(users)
    requires u in users && u.name in Mentions(content) && Notifiable(u, actor)
    ensures multiset(MentionMails(NamedUsers(users, Distinct(Mentions(content))), taskId, commentId, actor))
      [MentionMail(u, taskId, commentId, actor)] == 1
  {
    var names := Distinct(Mentions(content));
    NamedUsersSpec(users, names);
    NamedUsersKeepsEmailsUnique(users, names);
    MentionMailsOnce(NamedUsers(users, names), taskId, commentId, actor, u);
  }

  /** A notifiable user listed once among users with unique emails gets one mail. */
  lemma {:induction false} MentionMailsOnce(us: seq<User>, taskId: Id, commentId: Id, actor: Option<Id>, u: User)
    requires EmailsUnique(us) && u in us && Notifiable(u, actor)
    ensures multiset(MentionMails(us, taskId, commentId, actor))[MentionMail(u, taskId, commentId, actor)] == 1
  {
    var m := MentionMail(u, taskId, commentId, actor);
    var init, last := us[..|us| - 1], us[|us| - 1];
    assert EmailsUnique(init);
    assert forall v :: v in init ==> v.email != last.email;
    assert MentionMails(us, taskId, commentId, actor) ==
      MentionMails(init, taskId, commentId, actor)
      + (if Notifiable(last, actor) then [MentionMail(last, taskId, commentId, actor)] else []);
    if last == u {
      MentionMailsSpec(init, taskId, commentId, actor, m);
      assert m !in MentionMails(init, taskId, commentId, actor);
    } else {
      assert u in init;
      MentionMailsOnce(init, taskId, commentId, actor, u);
      assert MentionMail(last, taskId, commentId, actor) != m;
    }
  }

  /** The query's result keeps the table's unique emails. */
  lemma {:induction false} NamedUsersKeepsEmailsUnique(users: seq<User>, names: seq<string>)
    requires EmailsUnique(users)
    ensures EmailsUnique(NamedUsers(users, names))
  {
    if users != [] {
      var rest := users[1..];
      assert EmailsUnique(rest);
      NamedUsersKeepsEmailsUnique(rest, names);
      if users[0].name in names {
        var r := NamedUsers(rest, names);
        forall v | v in r ensures v.email != users[0].email {
          NamedUsersFromTable(rest, names, v);
          var k :| 0 <= k < |rest| && rest[k] == v;
          assert users[k + 1] == v;
        }
        ConsEmailsUnique(users[0], r);
      }
    }
  }

  lemma {:induction false} NamedUsersFromTable(users: seq<User>, names: seq<string>, v: User)
    requires v in NamedUsers(users, names)
    ensures v in users
  {
    if users != [] && v != users[0] {
      NamedUsersFromTable(users[1..], names, v);
    }
  }

  lemma ConsEmailsUnique(a: User, r: seq<User>)
    requires EmailsUnique(r) && forall v :: v in r ==> v.email != a.email
    ensures EmailsUnique([a] + r)
  {
    var full := [a] + r;
    forall i, j | 0 <= i < j < |full| ensures full[i].email != full[j].email {
      assert full[j] == r[j - 1];
      if i == 0 {
        assert r[j - 1] in r;
      } else {
        assert full[i] == r[i - 1];
      }
    }
  }

  lemma {:induction false} NoNamesNoUsers(users: seq<User>)
    ensures NamedUsers(users, []) == []
  {
    if users != [] {
      NoNamesNoUsers(users[1..]);
    }
  }

  /** The query depends only on which names are asked for, not on repeats or order. */
  lemma {:induction false} NamedUsersSameNames(users: seq<User>, a: seq<string>, b: seq<string>)
    requires forall x :: x in a <==> x in b
    ensures NamedUsers(users, a) == NamedUsers(users, b)
  {
    if users != [] {
      NamedUsersSameNames(users[1..], a, b);
    }
  }

  // ---------------------------------------------------------------------------
  // Attachments
  // ---------------------------------------------------------------------------

  /** An uploaded file: its client name, the path `store` saved it under, its size and MIME type. */
  datatype Upload = Upload(clientName: string, storedPath: string, size: nat, mimeType: string)

  /** The attachment rows the upload loop inserts, keys handed out from `firstId` on. */
  function UploadRows(files: seq<Upload>, taskId: Id, actor: Option<Id>, firstId: Id, now: Timestamp): (r: seq<Attachment>)
    ensures |r| == |files|
    ensures forall i :: 0 <= i < |r| ==>
      && r[i].ownerKind == TaskOwner && r[i].ownerId == taskId && r[i].userId == actor
      && r[i].fileName == files[i].clientName && r[i].filePath == files[i].storedPath
      && r[i].fileSize == files[i].size && r[i].mimeType == files[i].mimeType
      && r[i].createdAt == now && r[i].id == firstId + i
  {
    seq(|files|, i requires 0 <= i < |files| =>
      Attachment(firstId + i, TaskOwner, taskId, actor, files[i].clientName, files[i].storedPath,
        files[i].size, files[i].mimeType, now))
  }

  // ---------------------------------------------------------------------------
  // The operation
  // ---------------------------------------------------------------------------

  /** `$data['content'] ?? ''`. */
  function ContentOrEmpty(content: Option<string>): string {
    if content.Some? then content.value else ""
  }

  /** Stores the comment and its `comment` audit row carrying the content. */
  method InsertComment(db: Database, c: Comment)
    requires db.Valid() && c.id == db.serial
    modifies db`comments, db`activities, db`serial
    ensures db.Valid()
    ensures db.comments == old(db.comments) + [c]
    ensures db.activities == old(db.activities) +
      [Activity(old(db.serial) + 1, c.taskId, c.userId, "comment", JNull, JObject("content", c.content), None)]
    ensures db.serial == old(db.serial) + 2
  {
    db.comments := db.comments + [c];
    db.serial := db.serial + 1;
    db.activities := db.activities +
      [Activity(db.serial, c.taskId, c.userId, "comment", JNull, JObject("content", c.content), None)];
    db.serial := db.serial + 1;
  }

  /** The mention loop: one mail per listed user who has an email and is not the author. */
  method SendMentionMails(db: Database, us: seq<User>, taskId: Id, commentId: Id, actor: Option<Id>)
    modifies db`mails
    ensures db.mails == old(db.mails) + MentionMails(us, taskId, commentId, actor)
  {
    for i := 0 to |us|
      invariant db.mails == old(db.mails) + MentionMails(us[..i], taskId, commentId, actor)
    {
      assert us[..i + 1][..i] == us[..i];
      if Notifiable(us[i], actor) {
        db.mails := db.mails + [MentionMail(us[i], taskId, commentId, actor)];
      }
    }
    assert us[..|us|] == us;
  }

  /** The upload loop: one task-owned attachment per file, in order. */
  method StoreUploads(db: Database, files: seq<Upload>, taskId: Id, actor: Option<Id>, now: Timestamp)
    requires db.Valid()
    modifies db`attachments, db`serial
    ensures db.Valid()
    ensures db.attachments == old(db.attachments) + UploadRows(files, taskId, actor, old(db.serial), now)
    ensures db.serial == old(db.serial) + |files|
  {
    ghost var rows := UploadRows(files, taskId, actor, db.serial, now);
    for i := 0 to |files|
      invariant db.Valid()
      invariant db.serial == old(db.serial) + i
      invariant db.attachments == old(db.attachments) + rows[..i]
    {
      var f := files[i];
      db.attachments := db.attachments +
        [Attachment(db.serial, TaskOwner, taskId, actor, f.clientName, f.storedPath, f.size, f.mimeType, now)];
      assert rows[..i + 1] == rows[..i] + [rows[i]];
      db.serial := db.serial + 1;
    }
    assert rows[..|files|] == rows;
  }

  /** The `if (!empty($matches[1]))` block: no mention, no query and no mail. */
  method NotifyMentioned(db: Database, content: string, taskId: Id, commentId: Id, actor: Option<Id>)
    modifies db`mails
    ensures db.mails == old(db.mails) + MentionMails(NamedUsers(db.users, Distinct(Mentions(content))), taskId, commentId, actor)
  {
    var names := Distinct(Mentions(content));
    if names != [] {
      SendMentionMails(db, NamedUsers(db.users, names), taskId, commentId, actor);
    } else {
      NoNamesNoUsers(db.users);
    }
  }

  /** `createComment`. */
  method CreateComment(db: Database, taskId: Id, content: Option<string>, files: seq<Upload>,
                       actor: Option<Id>, now: Timestamp) returns (c: Comment)
    requires db.Valid()
    modifies db`comments, db`activities, db`mails, db`attachments, db`serial
    ensures db.Valid()
    ensures c == Comment(old(db.serial), taskId, actor, ContentOrEmpty(content), now)
    ensures db.comments == old(db.comments) + [c]
    ensures db.activities == old(db.activities) +
      [Activity(old(db.serial) + 1, taskId, actor, "comment", JNull, JObject("content", c.content), None)]
    ensures db.mails == old(db.mails) +
      MentionMails(NamedUsers(db.users, Distinct(Mentions(c.content))), taskId, c.id, actor)
    ensures db.attachments == old(db.attachments) + UploadRows(files, taskId, actor, old(db.serial) + 2, now)
  {
    c := Comment(db.serial, taskId, actor, ContentOrEmpty(content), now);
    InsertComment(db, c);
    NotifyMentioned(db, c.content, taskId, c.id, actor);
    StoreUploads(db, files, taskId, actor, now);
  }
}
