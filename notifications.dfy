/** The notification feed of the signed-in user (`useNotifications`): two
    listeners, one on the user's unread messages and one on the
    announcements of the last seven days. Each snapshot replaces the
    entries of its own type in the shared list and keeps the others;
    `unreadCount` follows the list's length. */
module Notifications {
  import opened Common
  import opened Documents

  const MessageType := "message"
  const AnnouncementType := "announcement"

  /** Seven days in milliseconds: `7 * 24 * 60 * 60 * 1000`. */
  const WeekMs: int := 7 * 24 * 60 * 60 * 1000

  /** The start of the announcement window: announcements created strictly
      after it are listened to. */
  function AnnouncementCutoff(nowMs: int): (c: int)
    ensures c == nowMs - 604800000
  {
    nowMs - WeekMs
  }

  /** `where('toId', '==', uid), where('read', '==', false)`: exactly the
      unread messages addressed to the user. */
  function MessagesQuery(uid: string): (q: seq<Constraint>)
    ensures forall f: Fields :: Admits(q, f) <==>
              && "toId" in f && f["toId"] == Str(uid)
              && "read" in f && f["read"] == Bool(false)
  {
    var q := [WhereEq("toId", Str(uid)), WhereEq("read", Bool(false))];
    assert forall f: Fields :: Admits(q, f) <==> Satisfies(q[0], f) && Satisfies(q[1], f);
    q
  }

  /** `where('createdAt', '>', cutoff)`: exactly the announcements stamped
      less than seven days before now. */
  function AnnouncementsQuery(nowMs: int): (q: seq<Constraint>)
    ensures forall f: Fields :: Admits(q, f) <==>
              && "createdAt" in f && f["createdAt"].Time?
              && nowMs - f["createdAt"].ms < 604800000
  {
    var q := [WhereGt("createdAt", Time(AnnouncementCutoff(nowMs)))];
    assert forall f: Fields :: Admits(q, f) <==> Satisfies(q[0], f);
    q
  }

  /** An announcement is in the window exactly when it is less than seven
      days old; the bound is strict. */
  lemma AnnouncementWindow(createdAtMs: int, nowMs: int)
    ensures createdAtMs > AnnouncementCutoff(nowMs) <==> nowMs - createdAtMs < 604800000
  {
  }

  /** `n.type === kind`; an entry without a `type` field has no type. */
  predicate HasType(n: Fields, kind: string)
  {
    "type" in n && n["type"] == Str(kind)
  }

  /** `{ id: doc.id, type: kind, ...doc.data() }`: the tags come first, so a
      stored `id` or `type` overrides them. */
  function Tag(d: StoredDoc, kind: string): (n: Fields)
    ensures n.Keys == d.fields.Keys + {"id", "type"}
    ensures forall k :: k in d.fields ==> n[k] == d.fields[k]
    ensures "id" !in d.fields ==> n["id"] == Str(d.id)
    ensures "type" !in d.fields ==> n["type"] == Str(kind)
  {
    map["id" := Str(d.id), "type" := Str(kind)] + d.fields
  }

  function TagAll(docs: seq<StoredDoc>, kind: string): (ns: seq<Fields>)
    ensures |ns| == |docs|
    ensures forall i :: 0 <= i < |docs| ==> ns[i] == Tag(docs[i], kind)
  {
    seq(|docs|, i requires 0 <= i < |docs| => Tag(docs[i], kind))
  }

  function IsType(kind: string): Fields -> bool
  {
    n => HasType(n, kind)
  }

  function NotType(kind: string): Fields -> bool
  {
    n => !HasType(n, kind)
  }

  /** The entries that are not of type `kind`. */
  function Others(prev: seq<Fields>, kind: string): seq<Fields>
  {
    Filter(prev, NotType(kind))
  }

  /** The entries of type `kind`. */
  function OfType(ns: seq<Fields>, kind: string): seq<Fields>
  {
    Filter(ns, IsType(kind))
  }

  /** The updater both listeners pass to `setNotifications`:
      `[...prev.filter(n => n.type !== kind), ...tagged docs]`. */
  function ReplaceType(prev: seq<Fields>, kind: string, docs: seq<StoredDoc>): seq<Fields>
  {
    Others(prev, kind) + TagAll(docs, kind)
  }

  /** No delivered document carries a `type` field of its own. */
  predicate Untyped(docs: seq<StoredDoc>)
  {
    forall i :: 0 <= i < |docs| ==> "type" !in docs[i].fields
  }

  /** Documents whose own `type`, if any, is `kind` itself. */
  predicate NoForeignType(docs: seq<StoredDoc>, kind: string)
  {
    forall i :: 0 <= i < |docs| ==> "type" in docs[i].fields ==> docs[i].fields["type"] == Str(kind)
  }

  /** The result is the earlier entries not of this type, in their order,
      followed by the delivered documents, tagged, in delivery order. */
  lemma ReplaceTypeShape(prev: seq<Fields>, kind: string, docs: seq<StoredDoc>)
    ensures var r := ReplaceType(prev, kind, docs);
      && |r| == |prev| - Count(prev, IsType(kind)) + |docs|
      && IsSubsequence(r[..|r| - |docs|], prev)
      && (forall i :: 0 <= i < |r| - |docs| ==> !HasType(r[i], kind))
      && (forall i :: 0 <= i < |docs| ==> r[|r| - |docs| + i] == Tag(docs[i], kind))
  {
    var r := ReplaceType(prev, kind, docs);
    var o := Others(prev, kind);
    CountPartition(prev, IsType(kind), NotType(kind));
    FilterIsSubsequence(prev, NotType(kind));
    assert r[..|r| - |docs|] == o;
  }

  lemma TaggedTypes(docs: seq<StoredDoc>, kind: string)
    requires NoForeignType(docs, kind)
    ensures forall i :: 0 <= i < |docs| ==> HasType(TagAll(docs, kind)[i], kind)
  {
  }

  /** Replacing one type leaves the entries of every other type unchanged,
      in order, when no delivered document carries a `type` other than `kind`. */
  lemma ReplaceTypeKeepsOtherTypes(prev: seq<Fields>, kind: string, docs: seq<StoredDoc>, other: string)
    requires other != kind
    requires NoForeignType(docs, kind)
    ensures OfType(ReplaceType(prev, kind, docs), other) == OfType(prev, other)
  {
    var isOther := IsType(other);
    var notKind := NotType(kind);
    FilterConcat(Others(prev, kind), TagAll(docs, kind), isOther);
    FilterKeepsNone(TagAll(docs, kind), isOther);
    FilterOfFilter(prev, notKind, isOther);
  }

  /** Filtering by `q` after a weaker `p` is filtering by `q` alone. */
  lemma {:induction false} FilterOfFilter(s: seq<Fields>, p: Fields -> bool, q: Fields -> bool)
    requires forall x :: q(x) ==> p(x)
    ensures Filter(Filter(s, p), q) == Filter(s, q)
  {
    if s != [] {
      FilterOfFilter(s[1..], p, q);
      FilterConcat(if p(s[0]) then [s[0]] else [], Filter(s[1..], p), q);
    }
  }

  /** After a snapshot of type `kind`, the entries of that type are exactly
      the delivered documents, tagged, in delivery order. */
  lemma ReplaceTypeOwnEntries(prev: seq<Fields>, kind: string, docs: seq<StoredDoc>)
    requires NoForeignType(docs, kind)
    ensures OfType(ReplaceType(prev, kind, docs), kind) == TagAll(docs, kind)
  {
    var isKind := IsType(kind);
    FilterConcat(Others(prev, kind), TagAll(docs, kind), isKind);
    FilterKeepsNone(Others(prev, kind), isKind);
    TaggedTypes(docs, kind);
    FilterKeepsAll(TagAll(docs, kind), isKind);
  }

  /** Applying the same snapshot twice gives the same list as applying it
      once, provided no document carries a `type` other than `kind`. */
  lemma ReplaceTypeIdempotent(prev: seq<Fields>, kind: string, docs: seq<StoredDoc>)
    requires NoForeignType(docs, kind)
    ensures ReplaceType(ReplaceType(prev, kind, docs), kind, docs) == ReplaceType(prev, kind, docs)
  {
    var notKind := NotType(kind);
    var others, tagged := Others(prev, kind), TagAll(docs, kind);
    FilterConcat(others, tagged, notKind);
    FilterOfFilter(prev, notKind, notKind);
    TaggedTypes(docs, kind);
    FilterKeepsNone(tagged, notKind);
    assert Others(others + tagged, kind) == others;
  }

  /** A message snapshot leaves the announcements alone, and an
      announcement snapshot leaves the messages alone. */
  lemma ListenersDoNotInterfere(prev: seq<Fields>, docs: seq<StoredDoc>)
    requires Untyped(docs)
    ensures OfType(ReplaceType(prev, MessageType, docs), AnnouncementType) == OfType(prev, AnnouncementType)
    ensures OfType(ReplaceType(prev, AnnouncementType, docs), MessageType) == OfType(prev, MessageType)
  {
    ReplaceTypeKeepsOtherTypes(prev, MessageType, docs, AnnouncementType);
    ReplaceTypeKeepsOtherTypes(prev, AnnouncementType, docs, MessageType);
  }

  /** The listeners the effect registers for a user at time `nowMs`: none
      without a user, otherwise the unread-messages query and the
      recent-announcements query. */
  function Subscriptions(user: Option<string>, nowMs: int): (qs: seq<seq<Constraint>>)
    ensures qs == [] <==> user.None?
    ensures user.Some? ==> |qs| == 2
    ensures user.Some? ==> forall f: Fields ::
              Admits(qs[0], f) <==> "toId" in f && f["toId"] == Str(user.value) && "read" in f && f["read"] == Bool(false)
    ensures user.Some? ==> forall f: Fields ::
              Admits(qs[1], f) <==> "createdAt" in f && f["createdAt"].Time? && nowMs - f["createdAt"].ms < 604800000
  {
    match user
    case None => []
    case Some(uid) => [MessagesQuery(uid), AnnouncementsQuery(nowMs)]
  }

  /** The hook instance: the signed-in user, the queries it listens to, the
      list and its count. The count is set by a second effect after the
      list changes; the model applies it in the same step. */
  class Feed {
    var user: Option<string>
    var subscribed: bool
    ghost var queries: seq<seq<Constraint>>
    var notifications: seq<Fields>
    var unreadCount: int

    /** `unreadCount` is the length of the whole list, announcements
        included; listeners exist only for a signed-in user. */
    ghost predicate Valid()
      reads this
    {
      && unreadCount == |notifications|
      && (subscribed ==> user.Some?)
      && (subscribed <==> queries != [])
    }

    /** Mount at time `nowMs`: with no user the effect returns before
        subscribing. */
    constructor (user: Option<string>, nowMs: int)
      ensures Valid()
      ensures this.user == user && subscribed == user.Some?
      ensures queries == Subscriptions(user, nowMs)
      ensures notifications == [] && unreadCount == 0
    {
      this.user := user;
      subscribed := user.Some?;
      queries := Subscriptions(user, nowMs);
      notifications := [];
      unreadCount := 0;
    }

    /** The user changes at time `nowMs`: the old listeners are released
        and, for a signed-in user, new ones registered with a fresh
        announcement window. The list is kept as it is. */
    method SetUser(u: Option<string>, nowMs: int)
      requires Valid()
      modifies this
      ensures Valid()
      ensures user == u && subscribed == u.Some?
      ensures queries == Subscriptions(u, nowMs)
      ensures notifications == old(notifications)
    {
      user := u;
      subscribed := u.Some?;
      queries := Subscriptions(u, nowMs);
    }

    /** A snapshot of the unread-messages query. */
    method HandleMessages(docs: seq<StoredDoc>)
      requires Valid()
      modifies this
      ensures Valid()
      ensures user == old(user) && subscribed == old(subscribed) && queries == old(queries)
      ensures notifications == if subscribed then ReplaceType(old(notifications), MessageType, docs)
                               else old(notifications)
    {
      if subscribed {
        notifications := ReplaceType(notifications, MessageType, docs);
        unreadCount := |notifications|;
      }
    }

    /** A snapshot of the recent-announcements query. */
    method HandleAnnouncements(docs: seq<StoredDoc>)
      requires Valid()
      modifies this
      ensures Valid()
      ensures user == old(user) && subscribed == old(subscribed) && queries == old(queries)
      ensures notifications == if subscribed then ReplaceType(old(notifications), AnnouncementType, docs)
                               else old(notifications)
    {
      if subscribed {
        notifications := ReplaceType(notifications, AnnouncementType, docs);
        unreadCount := |notifications|;
      }
    }
  }
}
