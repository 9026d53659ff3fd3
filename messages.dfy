/** The stages of GetMessages that do not touch the repository's maps: the
    channel/user filter, the sort by creation time, the Since/Until trims and the
    offset/limit page; also the sort GetUnreadMessagesByUserID uses. */
module Messages {
  import opened Uuids
  import opened Model
  import opened Seqs

  const MaxInt32: int := 0x7fff_ffff

  /** repository.MessagesQuery, the fields GetMessages reads. */
  datatype MessagesQuery = MessagesQuery(
    user: Uuid,
    channel: Uuid,
    since: Option<Time>,
    until: Option<Time>,
    inclusive: bool,
    limit: int,
    offset: int)

  /** The branch structure GetMessages uses to select messages: a Nil channel or user means "any". */
  function SelectedBy(q: MessagesQuery, m: Message): (b: bool)
    ensures b <==> (q.channel != Nil ==> m.channelID == q.channel) && (q.user != Nil ==> m.userID == q.user)
  {
    if q.channel != Nil then
      if q.user != Nil then m.channelID == q.channel && m.userID == q.user
      else m.channelID == q.channel
    else if q.user != Nil then m.userID == q.user
    else true
  }

  /** The copy GetMessages returns: the stamps are replaced by an empty list. */
  function Cleared(m: Message): Message {
    m.(stamps := [])
  }

  /** `a` may come before `b`: newest first compares with After, oldest first with Before. */
  predicate Precedes(a: Message, b: Message, newestFirst: bool) {
    if newestFirst then a.createdAt >= b.createdAt else a.createdAt <= b.createdAt
  }

  predicate SortedBy(s: seq<Message>, newestFirst: bool) {
    forall i, j :: 0 <= i < j < |s| ==> Precedes(s[i], s[j], newestFirst)
  }

  /** sort.Slice with an After (newest first) or Before (oldest first) comparison.
      sort.Slice is not stable, so the order of messages with equal creation times is
      left open by this contract: any sorted permutation meets it. */
  method SortByCreatedAt(s: seq<Message>, newestFirst: bool) returns (r: seq<Message>)
    ensures SortedBy(r, newestFirst)
    ensures multiset(r) == multiset(s)
  {
    r := [];
    var i := 0;
    while i < |s|
      invariant 0 <= i <= |s|
      invariant SortedBy(r, newestFirst)
      invariant multiset(r) == multiset(s[..i])
    {
      var x := s[i];
      var k := 0;
      while k < |r| && Precedes(r[k], x, newestFirst)
        invariant 0 <= k <= |r|
        invariant forall j :: 0 <= j < k ==> Precedes(r[j], x, newestFirst)
      {
        k := k + 1;
      }
      InsertKeepsSorted(r, k, x, newestFirst);
      InsertKeepsElements(r, k, x, s[..i]);
      PrefixSnoc(s, i);
      r := r[..k] + [x] + r[k..];
      i := i + 1;
    }
    assert s[..|s|] == s;
  }

  /** Inserting a message into a list adds it to the list's elements. */
  lemma InsertKeepsElements(r: seq<Message>, k: nat, x: Message, pre: seq<Message>)
    requires k <= |r| && multiset(r) == multiset(pre)
    ensures multiset(r[..k] + [x] + r[k..]) == multiset(pre + [x])
  {
    assert r == r[..k] + r[k..];
  }

  /** Inserting a message just before the first one it may precede keeps a list sorted. */
  lemma InsertKeepsSorted(r: seq<Message>, k: nat, x: Message, newestFirst: bool)
    requires k <= |r| && SortedBy(r, newestFirst)
    requires forall j :: 0 <= j < k ==> Precedes(r[j], x, newestFirst)
    requires k < |r| ==> !Precedes(r[k], x, newestFirst)
    ensures SortedBy(r[..k] + [x] + r[k..], newestFirst)
  {
    var t := r[..k] + [x] + r[k..];
    forall i, j | 0 <= i < j < |t| ensures Precedes(t[i], t[j], newestFirst) {
      if j > k && i != k {
        assert t[i] == r[if i < k then i else i - 1] && t[j] == r[j - 1];
      } else if j > k {
        assert Precedes(r[k], r[j - 1], newestFirst);
      }
    }
  }

  /** A message is no earlier than Since (strictly later unless the query is inclusive). */
  predicate FromSince(m: Message, since: Time, inclusive: bool) {
    if inclusive then m.createdAt >= since else m.createdAt > since
  }

  /** A message is no later than Until (strictly earlier unless the query is inclusive). */
  predicate ToUntil(m: Message, until: Time, inclusive: bool) {
    if inclusive then m.createdAt <= until else m.createdAt < until
  }

  /** A message lies in the query's time window. */
  predicate InWindow(m: Message, q: MessagesQuery) {
    && (q.since.Some? ==> FromSince(m, q.since.value, q.inclusive))
    && (q.until.Some? ==> ToUntil(m, q.until.value, q.inclusive))
  }

  /** The start index the Since loop computes, as written: the first message,
      scanning from the front, that is no earlier than Since. */
  function SinceStartAsWritten(tmp: seq<Message>, since: Time, inclusive: bool): (start: nat)
    ensures start <= |tmp|
    ensures forall i :: 0 <= i < start ==> !FromSince(tmp[i], since, inclusive)
    ensures start < |tmp| ==> FromSince(tmp[start], since, inclusive)
  {
    if tmp == [] || FromSince(tmp[0], since, inclusive) then 0
    else 1 + SinceStartAsWritten(tmp[1..], since, inclusive)
  }

  /** The end index the Until loop computes, as written: the last message,
      scanning from the back, that is no later than Until (-1 if none). */
  function UntilEndAsWritten(tmp: seq<Message>, until: Time, inclusive: bool): (end: int)
    ensures -1 <= end < |tmp|
    ensures forall i :: end < i < |tmp| ==> !ToUntil(tmp[i], until, inclusive)
    ensures end >= 0 ==> ToUntil(tmp[end], until, inclusive)
    decreases |tmp|
  {
    if tmp == [] || ToUntil(tmp[|tmp| - 1], until, inclusive) then |tmp| - 1
    else UntilEndAsWritten(tmp[..|tmp| - 1], until, inclusive)
  }

  /** The Since trim as written: the list from the scan's start index on. */
  function SinceTrimAsWritten(tmp: seq<Message>, since: Time, inclusive: bool): (r: seq<Message>)
    ensures |r| <= |tmp| && r == tmp[|tmp| - |r|..]
  {
    tmp[SinceStartAsWritten(tmp, since, inclusive)..]
  }

  /** The Until trim as written: the list up to the backward scan's end index. */
  function UntilTrimAsWritten(tmp: seq<Message>, until: Time, inclusive: bool): (r: seq<Message>)
    ensures |r| <= |tmp| && r == tmp[..|r|]
  {
    tmp[..UntilEndAsWritten(tmp, until, inclusive) + 1]
  }

  /** On a newest-first list the as-written Since trim keeps all or nothing: the whole
      list when some message is no earlier than Since, and no message otherwise. */
  lemma SinceAsWrittenAllOrNothing(tmp: seq<Message>, since: Time, inclusive: bool)
    requires SortedBy(tmp, true)
    ensures SinceTrimAsWritten(tmp, since, inclusive) ==
      if exists i :: 0 <= i < |tmp| && FromSince(tmp[i], since, inclusive) then tmp else []
  {
  }

  /** On a newest-first list the as-written Until trim keeps all or nothing: the whole
      list when some message is no later than Until, and no message otherwise. */
  lemma UntilAsWrittenAllOrNothing(tmp: seq<Message>, until: Time, inclusive: bool)
    requires SortedBy(tmp, true)
    ensures UntilTrimAsWritten(tmp, until, inclusive) ==
      if exists i :: 0 <= i < |tmp| && ToUntil(tmp[i], until, inclusive) then tmp else []
  {
  }

  /** A message of the channel created at the given instant (for the examples below). */
  function MessageAt(t: Time): Message {
    Message(Nil, Nil, Nil, "", t, t, None, [])
  }

  /** As written, the Since trim keeps a message older than Since: on the newest-first
      list [t=3, t=1] with Since = 2 (inclusive) the scan stops at index 0, so the
      whole list, including the message at t=1, survives. */
  lemma SinceAsWrittenKeepsOlderMessage()
    ensures var tmp := [MessageAt(3), MessageAt(1)];
      && SortedBy(tmp, true)
      && var start := SinceStartAsWritten(tmp, 2, true);
         tmp[start..] == tmp && !FromSince(tmp[1], 2, true)
  {
  }

  /** As written, the Until trim keeps a message newer than Until: on [t=3, t=1] with
      Until = 2 (inclusive) the backward scan stops at the last index, so the message
      at t=3 survives. */
  lemma UntilAsWrittenKeepsNewerMessage()
    ensures var tmp := [MessageAt(3), MessageAt(1)];
      && SortedBy(tmp, true)
      && var end := UntilEndAsWritten(tmp, 2, true);
         tmp[..end + 1] == tmp && !ToUntil(tmp[0], 2, true)
  {
  }

  /** On a newest-first list, the messages no earlier than Since form a prefix: the
      Since trim keeps exactly that prefix. */
  method TrimSince(tmp: seq<Message>, since: Time, inclusive: bool) returns (r: seq<Message>)
    requires SortedBy(tmp, true)
    ensures |r| <= |tmp| && r == tmp[..|r|]
    ensures forall i :: 0 <= i < |r| ==> FromSince(tmp[i], since, inclusive)
    ensures forall i :: |r| <= i < |tmp| ==> !FromSince(tmp[i], since, inclusive)
    ensures forall m :: m in r <==> m in tmp && FromSince(m, since, inclusive)
    ensures DistinctIds(tmp) ==> DistinctIds(r)
    ensures SortedBy(r, true)
  {
    var end := 0;
    while end < |tmp| && FromSince(tmp[end], since, inclusive)
      invariant 0 <= end <= |tmp|
      invariant forall i :: 0 <= i < end ==> FromSince(tmp[i], since, inclusive)
    {
      end := end + 1;
    }
    if end < |tmp| {
      // every later message is no newer than the first one left out
      forall i | end <= i < |tmp| ensures !FromSince(tmp[i], since, inclusive) {
        assert Precedes(tmp[end], tmp[i], true) || i == end;
      }
    }
    r := tmp[..end];
  }

  /** On a newest-first list, the messages no later than Until form a suffix: the
      Until trim keeps exactly that suffix. */
  method TrimUntil(tmp: seq<Message>, until: Time, inclusive: bool) returns (r: seq<Message>)
    requires SortedBy(tmp, true)
    ensures |r| <= |tmp| && r == tmp[|tmp| - |r|..]
    ensures forall i :: |tmp| - |r| <= i < |tmp| ==> ToUntil(tmp[i], until, inclusive)
    ensures forall i :: 0 <= i < |tmp| - |r| ==> !ToUntil(tmp[i], until, inclusive)
    ensures forall m :: m in r <==> m in tmp && ToUntil(m, until, inclusive)
    ensures DistinctIds(tmp) ==> DistinctIds(r)
    ensures SortedBy(r, true)
  {
    var start := 0;
    while start < |tmp| && !ToUntil(tmp[start], until, inclusive)
      invariant 0 <= start <= |tmp|
      invariant forall i :: 0 <= i < start ==> !ToUntil(tmp[i], until, inclusive)
    {
      start := start + 1;
    }
    if start < |tmp| {
      // every later message is no newer than the first one kept
      forall i | start <= i < |tmp| ensures ToUntil(tmp[i], until, inclusive) {
        assert Precedes(tmp[start], tmp[i], true) || i == start;
      }
    }
    r := tmp[start..];
  }

  /** A negative offset counts as 0. */
  function NormOffset(offset: int): (o: nat)
    ensures offset >= 0 ==> o == offset
    ensures offset < 0 ==> o == 0
  {
    if offset < 0 then 0 else offset
  }

  /** A limit of 0 or less means "no limit", i.e. MaxInt32. */
  function NormLimit(limit: int): (l: nat)
    ensures l > 0
    ensures limit > 0 ==> l == limit
    ensures limit <= 0 ==> l == MaxInt32
  {
    if limit <= 0 then MaxInt32 else limit
  }

  /** The number of messages a page of a list of n holds. */
  function PageSize(n: nat, offset: int, limit: int): (k: nat)
    ensures k <= NormLimit(limit)
    ensures NormOffset(offset) + k <= n || k == 0
  {
    var o, l := NormOffset(offset), NormLimit(limit);
    if n <= o then 0 else if n - o < l then n - o else l
  }

  /** `page` is the run of `tmp` that starts at the normalised offset. */
  predicate PageAt(page: seq<Message>, tmp: seq<Message>, offset: int) {
    forall i :: 0 <= i < |page| ==> NormOffset(offset) + i < |tmp| && page[i] == tmp[NormOffset(offset) + i]
  }

  /** The offset/limit loop at the end of GetMessages. */
  method Paginate(tmp: seq<Message>, offset: int, limit: int) returns (page: seq<Message>, more: bool)
    ensures more <==> |tmp| > NormOffset(offset) + NormLimit(limit)
    ensures |page| == PageSize(|tmp|, offset, limit)
    ensures forall i :: 0 <= i < |page| ==> NormOffset(offset) + i < |tmp| && page[i] == tmp[NormOffset(offset) + i]
    ensures forall m :: m in page ==> m in tmp
    ensures SortedBy(tmp, true) ==> SortedBy(page, true)
    ensures DistinctIds(tmp) ==> DistinctIds(page)
  {
    var o, l := NormOffset(offset), NormLimit(limit);
    more := |tmp| > o + l;
    page := [];
    var i := o;
    while i < |tmp| && i < o + l
      invariant o <= i
      invariant i <= |tmp| || i == o
      invariant i <= o + l
      invariant |page| == i - o
      invariant forall j :: 0 <= j < |page| ==> page[j] == tmp[o + j]
    {
      page := page + [tmp[i]];
      i := i + 1;
    }
    forall m | m in page ensures m in tmp {
      var j :| 0 <= j < |page| && page[j] == m;
      assert m == tmp[o + j];
    }
  }

  /** No two messages of the list share an id. */
  predicate DistinctIds(s: seq<Message>) {
    forall i, j :: 0 <= i < j < |s| ==> s[i].id != s[j].id
  }

  function IdSet(s: seq<Message>): set<Uuid> {
    set m | m in s :: m.id
  }

  /** Appending a message with a new id keeps the ids distinct exactly when they were. */
  lemma DistinctIdsSnoc(t: seq<Message>, x: Message)
    requires x.id !in IdSet(t)
    ensures DistinctIds(t + [x]) <==> DistinctIds(t)
  {
    assert forall i :: 0 <= i < |t| ==> (t + [x])[i] == t[i];
  }

  /** Appending a message adds its id. */
  lemma IdSetSnoc(t: seq<Message>, x: Message)
    ensures IdSet(t + [x]) == IdSet(t) + {x.id}
  {
  }

  /** A list has at most as many ids as messages, and exactly as many iff no id repeats. */
  lemma {:induction false} IdSetCard(s: seq<Message>)
    ensures |IdSet(s)| <= |s|
    ensures DistinctIds(s) <==> |IdSet(s)| == |s|
  {
    if s != [] {
      var t, x := s[..|s| - 1], s[|s| - 1];
      assert s == t + [x];
      IdSetSnoc(t, x);
      IdSetCard(t);
      if x.id in IdSet(t) {
        var i :| 0 <= i < |t| && t[i].id == x.id;
        assert s[i].id == s[|s| - 1].id;
      } else {
        DistinctIdsSnoc(t, x);
      }
    }
  }

  /** Sorting keeps the ids, their number and their distinctness. */
  lemma PermutationKeepsIds(a: seq<Message>, b: seq<Message>)
    requires multiset(a) == multiset(b)
    ensures IdSet(a) == IdSet(b) && |a| == |b|
    ensures DistinctIds(a) ==> DistinctIds(b)
  {
    assert forall m :: m in a <==> m in multiset(a);
    assert forall m :: m in b <==> m in multiset(b);
    assert |a| == |multiset(a)| && |b| == |multiset(b)|;
    IdSetCard(a);
    IdSetCard(b);
  }
}
