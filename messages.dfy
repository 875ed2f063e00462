/** The message page (`Messages`): the inbox and outbox queries, the
    compose form with its checks and its write, the unread badge of the
    inbox tab, and `markAsRead`, whose body is commented out. */
module Messages {
  import opened Common
  import opened Documents
  import opened Types

  datatype Tab = Inbox | Outbox | Compose

  /** What the page reads of the signed-in user. */
  datatype AuthUser = AuthUser(uid: string, email: Option<string>)

  /** `user ? [where(field, '==', user.uid), orderBy('createdAt', 'desc')] : []`:
      the inbox binding filters on `toId`, the outbox binding on `fromId`. */
  function MailboxQuery(user: Option<AuthUser>, field: string): (q: seq<Constraint>)
    ensures q == [] <==> user.None?
    ensures user.Some? ==> q == [WhereEq(field, Str(user.value.uid)), OrderByDesc("createdAt")]
  {
    match user
    case None => []
    case Some(u) => [WhereEq(field, Str(u.uid)), OrderByDesc("createdAt")]
  }

  /** `email.split('@')[0]`: everything before the first `@`. */
  function EmailPrefix(email: string): (p: string)
    ensures |p| <= |email| && p == email[..|p|]
    ensures '@' !in p
    ensures |p| < |email| ==> email[|p|] == '@'
    ensures p == [] <==> email == [] || email[0] == '@'
  {
    if email == [] || email[0] == '@' then []
    else [email[0]] + EmailPrefix(email[1..])
  }

  /** `user?.email?.split('@')[0] || 'User'`. */
  function SenderName(user: Option<AuthUser>): string
  {
    if user.None? || user.value.email.None? || EmailPrefix(user.value.email.value) == "" then "User"
    else EmailPrefix(user.value.email.value)
  }

  /** The sender's name is the part of the e-mail address before the first
      `@` when that part is not empty, and `User` otherwise. */
  lemma SenderNameSpec(user: Option<AuthUser>)
    ensures user.Some? && user.value.email.Some? && EmailPrefix(user.value.email.value) != "" ==>
      var e := user.value.email.value;
      && SenderName(user) == e[..|SenderName(user)|]
      && '@' !in SenderName(user)
      && (|SenderName(user)| < |e| ==> e[|SenderName(user)|] == '@')
    ensures user.None? || user.value.email.None? || EmailPrefix(user.value.email.value) == "" ==>
      SenderName(user) == "User"
    ensures user.Some? && user.value.email.Some? && (user.value.email.value == "" || user.value.email.value[0] == '@') ==>
      SenderName(user) == "User"
  {
  }

  /** The object passed to `sendMessage`, before the binding stamps
      `createdAt`; the recipient's name and role are fixed. */
  datatype OutgoingMessage = OutgoingMessage(
    fromId: Option<string>,
    fromName: string,
    fromRole: Option<Role>,
    toId: string,
    toName: string,
    toRole: Role,
    subject: string,
    content: string,
    read: bool)

  datatype SendOutcome = Rejected | SendFailed(message: OutgoingMessage) | Sent(message: OutgoingMessage)

  /** The message built from the form. */
  function Outgoing(user: Option<AuthUser>, role: Option<Role>, toId: string, subject: string, content: string): (m: OutgoingMessage)
    ensures !m.read && m.toId == toId && m.subject == subject && m.content == content
    ensures m.fromId == (if user.Some? then Some(user.value.uid) else None)
    ensures m.toName == "Teacher" && m.toRole == Teacher && m.fromRole == role
  {
    OutgoingMessage(if user.Some? then Some(user.value.uid) else None, SenderName(user), role,
                    toId, "Teacher", Teacher, subject, content, false)
  }

  /** The page's state fields: the tab and the compose data. */
  class MessagesPage {
    var selectedTab: Tab
    var toId: string
    var subject: string
    var content: string

    constructor ()
      ensures selectedTab == Inbox && toId == "" && subject == "" && content == ""
    {
      selectedTab := Inbox;
      toId := "";
      subject := "";
      content := "";
    }

    /** `handleSendMessage`: with an empty subject, content or recipient
        nothing is written and nothing changes; otherwise the message is
        written (`accept` is the store's answer). A failed write keeps the
        page as it is; a successful one switches to the outbox and empties
        the form. */
    method SendMessage(user: Option<AuthUser>, role: Option<Role>, accept: bool) returns (outcome: SendOutcome)
      modifies this
      ensures old(subject) == "" || old(content) == "" || old(toId) == "" ==>
        && outcome == Rejected
        && selectedTab == old(selectedTab) && toId == old(toId) && subject == old(subject) && content == old(content)
      ensures old(subject) != "" && old(content) != "" && old(toId) != "" ==>
        var m := Outgoing(user, role, old(toId), old(subject), old(content));
        && outcome == (if accept then Sent(m) else SendFailed(m))
        && (accept ==> selectedTab == Outbox && toId == "" && subject == "" && content == "")
        && (!accept ==> selectedTab == old(selectedTab) && toId == old(toId) && subject == old(subject)
                        && content == old(content))
    {
      if subject == "" || content == "" || toId == "" {
        return Rejected;
      }
      var m := Outgoing(user, role, toId, subject, content);
      if !accept {
        return SendFailed(m);
      }
      selectedTab := Outbox;
      toId, subject, content := "", "", "";
      outcome := Sent(m);
    }

    /** `markAsRead`: its update is commented out, so it issues no write
        and, with no `modifies` clause, changes no field. */
    method MarkAsRead(messageId: string) returns (requests: seq<WriteRequest>)
      ensures requests == []
    {
      requests := [];
    }
  }

  function IsUnread(): Message -> bool
  {
    (m: Message) => !m.read
  }

  function ReadFlag(m: Message): bool
  {
    m.read
  }

  /** The badge of the inbox tab: shown only for a non-empty inbox, with
      the number of unread messages. */
  function UnreadBadge(inbox: seq<Message>): Option<nat>
  {
    if |inbox| > 0 then Some(Count(inbox, IsUnread())) else None
  }

  /** The badge is shown exactly when the inbox is not empty; it is the
      number of inbox messages whose `read` flag is false, so it never exceeds the inbox size, and
      reads 0 when every message is read. */
  lemma UnreadBadgeSpec(inbox: seq<Message>)
    ensures UnreadBadge(inbox).Some? <==> |inbox| > 0
    ensures UnreadBadge(inbox).Some? ==>
      && UnreadBadge(inbox).value == multiset(Mapped(inbox, ReadFlag))[false]
      && UnreadBadge(inbox).value <= |inbox|
      && (forall m :: m in Filter(inbox, IsUnread()) <==> m in inbox && !m.read)
      && ((forall i :: 0 <= i < |inbox| ==> inbox[i].read) ==> UnreadBadge(inbox).value == 0)
      && ((forall i :: 0 <= i < |inbox| ==> !inbox[i].read) ==> UnreadBadge(inbox).value == |inbox|)
  {
    FilterMembership(inbox, IsUnread());
    CountAsMultiplicity(inbox, IsUnread(), ReadFlag, false);
    if forall i :: 0 <= i < |inbox| ==> inbox[i].read {
      FilterKeepsNone(inbox, IsUnread());
    }
    if forall i :: 0 <= i < |inbox| ==> !inbox[i].read {
      FilterKeepsAll(inbox, IsUnread());
    }
  }
}
