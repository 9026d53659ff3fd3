/** The records the in-memory repository stores, its error values and the
    option/result wrappers its operations return. */
module Model {
  import opened Uuids

  /** An instant, as nanoseconds on one clock; only its order matters here. */
  type Time = int

  datatype Option<+T> = None | Some(value: T)

  datatype Result<+T, +E> = Success(value: T) | Failure(error: E)

  /** The errors of the repository package, plus the two kinds that come from
      collaborators outside the model: the blob store's "no such key" and an
      opaque error of a collaborator (argument validation, a store write, icon
      generation), identified only by a code. */
  datatype RepoError =
    | ErrNilID
    | ErrNotFound
    | ErrAlreadyExists
    | ArgError(field: string, message: string)
    | ErrFileNotFound
    | CollaboratorError(code: nat)

  /** Account states of a user (model.UserAccountStatus). */
  const StatusDeactivated: int := 0
  const StatusActive: int := 1

  /** File types the repository itself uses (model.FileType). */
  const FileTypeThumbnail: string := "thumbnail"

  /** The MIME type of every thumbnail the repository encodes. */
  const PngMime: string := "image/png"

  /** model.File: a stored file's metadata. */
  datatype File = File(
    id: Uuid,
    name: string,
    size: int,
    mime: string,
    fileType: string,
    creatorID: Option<Uuid>,
    channelID: Option<Uuid>,
    hash: string,
    hasThumbnail: bool,
    thumbnailMime: Option<string>,
    thumbnailWidth: int,
    thumbnailHeight: int,
    createdAt: Time)

  /** model.User, with the profile fields the formatters read folded in. */
  datatype User = User(
    id: Uuid,
    name: string,
    displayName: string,
    status: int,
    bot: bool,
    role: string,
    icon: Uuid,
    twitterID: string,
    lastOnline: Option<Time>,
    createdAt: Time,
    updatedAt: Time)

  /** The zero value of model.User, which a Go map read yields for a missing key. */
  const ZeroUser: User := User(Nil, "", "", StatusDeactivated, false, "", Nil, "", None, 0, 0)

  /** model.UserGroup; the member and admin lists are filled only in query results. */
  datatype UserGroup = UserGroup(
    id: Uuid,
    name: string,
    description: string,
    groupType: string,
    createdAt: Time,
    updatedAt: Time,
    members: seq<Uuid>,
    admins: seq<Uuid>)

  /** model.Tag. */
  datatype Tag = Tag(id: Uuid, name: string, createdAt: Time, updatedAt: Time)

  /** The zero value of model.Tag. */
  const ZeroTag: Tag := Tag(Nil, "", 0, 0)

  /** model.UsersTag: a tag attached to a user; `tag` is filled only in query results. */
  datatype UsersTag = UsersTag(
    userID: Uuid,
    tagID: Uuid,
    isLocked: bool,
    createdAt: Time,
    updatedAt: Time,
    tag: Tag)

  /** model.Channel, the fields the repository and the formatters use. */
  datatype Channel = Channel(
    id: Uuid,
    name: string,
    parentID: Uuid,
    topic: string,
    isPublic: bool,
    isVisible: bool,
    isForced: bool,
    createdAt: Time,
    updatedAt: Time)

  /** model.MessageStamp. */
  datatype MessageStamp = MessageStamp(
    messageID: Uuid,
    stampID: Uuid,
    userID: Uuid,
    count: int,
    createdAt: Time,
    updatedAt: Time)

  /** model.Message; `pin` is the id of the message's pin when it is pinned. */
  datatype Message = Message(
    id: Uuid,
    userID: Uuid,
    channelID: Uuid,
    text: string,
    createdAt: Time,
    updatedAt: Time,
    pin: Option<Uuid>,
    stamps: seq<MessageStamp>)

  /** model.Pin. */
  datatype Pin = Pin(id: Uuid, messageID: Uuid, message: Message, userID: Uuid, createdAt: Time)

  /** model.WebhookBot; `botUser` is filled only in query results. */
  datatype WebhookBot = WebhookBot(
    id: Uuid,
    botUserID: Uuid,
    description: string,
    secret: string,
    channelID: Uuid,
    creatorID: Uuid,
    createdAt: Time,
    updatedAt: Time,
    botUser: User)

  /** model.Bot. */
  datatype Bot = Bot(
    id: Uuid,
    botUserID: Uuid,
    description: string,
    verificationToken: string,
    postURL: string,
    subscribeEvents: set<string>,
    privileged: bool,
    state: int,
    creatorID: Uuid,
    createdAt: Time,
    updatedAt: Time)

  /** model.OAuth2Token, the field the formatters read. */
  datatype OAuth2Token = OAuth2Token(id: Uuid, accessToken: string)
}
