/** The v3 API response formatters: record-to-record mappings from the stored
    records to the JSON response shapes, and the list formatters that fill a
    slice of the input's length by index. */
module Responses {
  import opened Uuids
  import M = Model

  /** uuid.NullUUID. */
  datatype NullUuid = NullUuid(uuid: Uuid, valid: bool)

  /** The parent id a NullUUID stands for: the id when valid, Nil otherwise. */
  function ParentOf(n: NullUuid): Uuid {
    if n.valid then n.uuid else Nil
  }

  datatype Channel = Channel(
    id: Uuid,
    name: string,
    parentID: NullUuid,
    topic: string,
    children: seq<Uuid>,
    visibility: bool,
    force: bool)

  /** formatChannel: the parent is marked valid exactly when it is not Nil. */
  function FormatChannel(c: M.Channel, childrenID: seq<Uuid>): (r: Channel)
    ensures r.parentID.valid <==> c.parentID != Nil
    ensures r.parentID.uuid == c.parentID
    ensures r.id == c.id && r.name == c.name && r.topic == c.topic && r.children == childrenID
    ensures r.visibility == c.isVisible && r.force == c.isForced
  {
    Channel(c.id, c.name, NullUuid(c.parentID, c.parentID != Nil), c.topic, childrenID, c.isVisible, c.isForced)
  }

  /** A client reading the response recovers the stored parent id, root channels included. */
  lemma FormatChannelParentRoundTrip(c: M.Channel, childrenID: seq<Uuid>)
    ensures ParentOf(FormatChannel(c, childrenID).parentID) == c.parentID
  {
  }

  datatype UserTag = UserTag(id: Uuid, tag: string, isLocked: bool, createdAt: M.Time, updatedAt: M.Time)

  /** One element of formatUserTags: id and name from the tag, the rest from the user's entry. */
  function FormatUserTag(ut: M.UsersTag): (r: UserTag)
    ensures r.id == ut.tag.id && r.tag == ut.tag.name
    ensures r.isLocked == ut.isLocked && r.createdAt == ut.createdAt && r.updatedAt == ut.updatedAt
  {
    UserTag(ut.tag.id, ut.tag.name, ut.isLocked, ut.createdAt, ut.updatedAt)
  }

  /** The list formatUserTags produces, as a value. */
  function UserTagList(uts: seq<M.UsersTag>): (r: seq<UserTag>)
    ensures |r| == |uts|
    ensures forall i :: 0 <= i < |uts| ==> r[i] == FormatUserTag(uts[i])
  {
    seq(|uts|, i requires 0 <= i < |uts| => FormatUserTag(uts[i]))
  }

  method FormatUserTags(uts: seq<M.UsersTag>) returns (res: seq<UserTag>)
    ensures |res| == |uts|
    ensures forall i :: 0 <= i < |uts| ==> res[i] == FormatUserTag(uts[i])
    ensures res == UserTagList(uts)
  {
    var a := new UserTag[|uts|];
    for i := 0 to |uts|
      invariant forall j :: 0 <= j < i ==> a[j] == FormatUserTag(uts[j])
    {
      a[i] := FormatUserTag(uts[i]);
    }
    res := a[..];
  }

  datatype UserDetail = UserDetail(
    id: Uuid,
    state: int,
    bot: bool,
    iconFileID: Uuid,
    displayName: string,
    name: string,
    twitterID: string,
    lastOnline: M.Option<M.Time>,
    updatedAt: M.Time,
    tags: seq<UserTag>,
    groups: seq<Uuid>,
    bio: string)

  /** User.GetResponseDisplayName: the display name, or the name when it is empty. */
  function ResponseDisplayName(u: M.User): (s: string)
    ensures |u.displayName| > 0 ==> s == u.displayName
    ensures |u.displayName| == 0 ==> s == u.name
  {
    if |u.displayName| == 0 then u.name else u.displayName
  }

  /** formatUserDetail: the profile fields, the formatted tags in order, the groups as given,
      and an empty bio. */
  function FormatUserDetail(u: M.User, uts: seq<M.UsersTag>, groups: seq<Uuid>): (r: UserDetail)
    ensures r.id == u.id && r.state == u.status && r.bot == u.bot && r.iconFileID == u.icon
    ensures r.displayName == ResponseDisplayName(u)
    ensures |r.displayName| > 0 <==> |u.displayName| > 0 || |u.name| > 0
    ensures r.name == u.name && r.twitterID == u.twitterID && r.lastOnline == u.lastOnline && r.updatedAt == u.updatedAt
    ensures |r.tags| == |uts| && forall i :: 0 <= i < |uts| ==> r.tags[i] == FormatUserTag(uts[i])
    ensures r.groups == groups && r.bio == ""
  {
    UserDetail(u.id, u.status, u.bot, u.icon, ResponseDisplayName(u), u.name, u.twitterID,
               u.lastOnline, u.updatedAt, UserTagList(uts), groups, "")
  }

  /** The v3 Webhook, whose ids are strings. */
  datatype Webhook = Webhook(
    webhookID: string,
    botUserID: string,
    displayName: string,
    description: string,
    secure: bool,
    channelID: string,
    ownerID: string,
    createdAt: M.Time,
    updatedAt: M.Time)

  /** formatWebhook over a webhook bot: the name is the bot user's display name, and
      the webhook is secure exactly when it has a secret. */
  function FormatWebhook(w: M.WebhookBot): (r: Webhook)
    ensures r.secure <==> |w.secret| > 0
    ensures r.webhookID == UuidString(w.id) && r.botUserID == UuidString(w.botUserID)
    ensures r.channelID == UuidString(w.channelID) && r.ownerID == UuidString(w.creatorID)
    ensures r.displayName == w.botUser.displayName && r.description == w.description
    ensures r.createdAt == w.createdAt && r.updatedAt == w.updatedAt
  {
    Webhook(UuidString(w.id), UuidString(w.botUserID), w.botUser.displayName, w.description,
            |w.secret| > 0, UuidString(w.channelID), UuidString(w.creatorID), w.createdAt, w.updatedAt)
  }

  /** The string ids of the response identify the webhook, its bot user, channel and owner. */
  lemma FormatWebhookKeepsIdentity(a: M.WebhookBot, b: M.WebhookBot)
    ensures FormatWebhook(a).webhookID == FormatWebhook(b).webhookID ==> a.id == b.id
    ensures FormatWebhook(a).botUserID == FormatWebhook(b).botUserID ==> a.botUserID == b.botUserID
    ensures FormatWebhook(a).channelID == FormatWebhook(b).channelID ==> a.channelID == b.channelID
    ensures FormatWebhook(a).ownerID == FormatWebhook(b).ownerID ==> a.creatorID == b.creatorID
  {
    if FormatWebhook(a).webhookID == FormatWebhook(b).webhookID {
      UuidStringInjective(a.id, b.id);
    }
    if FormatWebhook(a).botUserID == FormatWebhook(b).botUserID {
      UuidStringInjective(a.botUserID, b.botUserID);
    }
    if FormatWebhook(a).channelID == FormatWebhook(b).channelID {
      UuidStringInjective(a.channelID, b.channelID);
    }
    if FormatWebhook(a).ownerID == FormatWebhook(b).ownerID {
      UuidStringInjective(a.creatorID, b.creatorID);
    }
  }

  method FormatWebhooks(ws: seq<M.WebhookBot>) returns (res: seq<Webhook>)
    ensures |res| == |ws|
    ensures forall i :: 0 <= i < |ws| ==> res[i] == FormatWebhook(ws[i])
  {
    var a := new Webhook[|ws|];
    ghost var want := seq(|ws|, i requires 0 <= i < |ws| => FormatWebhook(ws[i]));
    for i := 0 to |ws|
      invariant a[..i] == want[..i]
    {
      a[i] := FormatWebhook(ws[i]);
      assert a[..i + 1] == a[..i] + [a[i]];
    }
    assert a[..] == a[..|ws|];
    res := a[..];
  }

  datatype Bot = Bot(
    id: Uuid,
    botUserID: Uuid,
    description: string,
    developerID: Uuid,
    subscribeEvents: set<string>,
    state: int,
    createdAt: M.Time,
    updatedAt: M.Time)

  /** formatBot: the developer is the bot's creator. */
  function FormatBot(b: M.Bot): (r: Bot)
    ensures r.developerID == b.creatorID
    ensures r.id == b.id && r.botUserID == b.botUserID && r.description == b.description
    ensures r.subscribeEvents == b.subscribeEvents && r.state == b.state
    ensures r.createdAt == b.createdAt && r.updatedAt == b.updatedAt
  {
    Bot(b.id, b.botUserID, b.description, b.creatorID, b.subscribeEvents, b.state, b.createdAt, b.updatedAt)
  }

  method FormatBots(bs: seq<M.Bot>) returns (res: seq<Bot>)
    ensures |res| == |bs|
    ensures forall i :: 0 <= i < |bs| ==> res[i] == FormatBot(bs[i])
  {
    var a := new Bot[|bs|];
    for i := 0 to |bs|
      invariant forall j :: 0 <= j < i ==> a[j] == FormatBot(bs[j])
    {
      a[i] := FormatBot(bs[i]);
    }
    res := a[..];
  }

  datatype BotTokens = BotTokens(verificationToken: string, accessToken: string)

  datatype BotDetail = BotDetail(
    id: Uuid,
    botUserID: Uuid,
    description: string,
    developerID: Uuid,
    subscribeEvents: set<string>,
    state: int,
    createdAt: M.Time,
    updatedAt: M.Time,
    tokens: BotTokens,
    endpoint: string,
    privileged: bool,
    channels: seq<Uuid>)

  /** formatBotDetail: the bot's fields plus its verification token, the access token of
      its OAuth2 token, its endpoint, privilege and channels. */
  function FormatBotDetail(b: M.Bot, t: M.OAuth2Token, channels: seq<Uuid>): (r: BotDetail)
    ensures r.developerID == b.creatorID
    ensures r.tokens.verificationToken == b.verificationToken && r.tokens.accessToken == t.accessToken
    ensures r.endpoint == b.postURL && r.privileged == b.privileged && r.channels == channels
  {
    BotDetail(b.id, b.botUserID, b.description, b.creatorID, b.subscribeEvents, b.state, b.createdAt,
              b.updatedAt, BotTokens(b.verificationToken, t.accessToken), b.postURL, b.privileged, channels)
  }

  /** The detail view agrees with the plain view on every field the two share. */
  lemma BotDetailExtendsBot(b: M.Bot, t: M.OAuth2Token, channels: seq<Uuid>)
    ensures var d, p := FormatBotDetail(b, t, channels), FormatBot(b);
      && d.id == p.id && d.botUserID == p.botUserID && d.description == p.description
      && d.developerID == p.developerID && d.subscribeEvents == p.subscribeEvents && d.state == p.state
      && d.createdAt == p.createdAt && d.updatedAt == p.updatedAt
  {
  }

  datatype Message = Message(
    id: Uuid,
    userID: Uuid,
    channelID: Uuid,
    content: string,
    createdAt: M.Time,
    updatedAt: M.Time,
    pinned: bool,
    stamps: seq<M.MessageStamp>,
    threadID: NullUuid)

  /** formatMessage: the content is the text, and the message is pinned exactly when it
      has a pin. The thread id is left at its zero value. */
  function FormatMessage(m: M.Message): (r: Message)
    ensures r.pinned <==> m.pin.Some?
    ensures r.content == m.text
    ensures r.id == m.id && r.userID == m.userID && r.channelID == m.channelID
    ensures r.createdAt == m.createdAt && r.updatedAt == m.updatedAt && r.stamps == m.stamps
    ensures !r.threadID.valid
  {
    Message(m.id, m.userID, m.channelID, m.text, m.createdAt, m.updatedAt, m.pin.Some?, m.stamps, NullUuid(Nil, false))
  }

  method FormatMessages(ms: seq<M.Message>) returns (res: seq<Message>)
    ensures |res| == |ms|
    ensures forall i :: 0 <= i < |ms| ==> res[i] == FormatMessage(ms[i])
  {
    var a := new Message[|ms|];
    for i := 0 to |ms|
      invariant forall j :: 0 <= j < i ==> a[j] == FormatMessage(ms[j])
    {
      a[i] := FormatMessage(ms[i]);
    }
    res := a[..];
  }

  datatype Pin = Pin(userID: Uuid, pinnedAt: M.Time, message: Message)

  /** formatPin: the pinned message, formatted and then marked pinned. */
  function FormatPin(p: M.Pin): (r: Pin)
    ensures r.message.pinned
    ensures r.message == FormatMessage(p.message).(pinned := true)
    ensures r.userID == p.userID && r.pinnedAt == p.createdAt
  {
    var res := Pin(p.userID, p.createdAt, FormatMessage(p.message));
    res.(message := res.message.(pinned := true))
  }

  /** A pin shows its message as formatMessage shows that message once it carries the pin. */
  lemma FormatPinIsPinnedMessage(p: M.Pin)
    ensures FormatPin(p).message == FormatMessage(p.message.(pin := M.Some(p.id)))
  {
  }

  method FormatPins(pins: seq<M.Pin>) returns (res: seq<Pin>)
    ensures |res| == |pins|
    ensures forall i :: 0 <= i < |pins| ==> res[i] == FormatPin(pins[i])
  {
    var a := new Pin[|pins|];
    for i := 0 to |pins|
      invariant forall j :: 0 <= j < i ==> a[j] == FormatPin(pins[j])
    {
      a[i] := FormatPin(pins[i]);
    }
    res := a[..];
  }
}
