/** The in-memory repository (testutils.TestRepository): a set of maps that every
    operation reads and updates in place. Locks are not modelled; each operation
    is one sequential read-modify-write of the maps it names in `modifies`. */
module Repository {
  import opened Uuids
  import opened Seqs
  import opened Model
  import opened Files
  import opened Messages
  import opened Subscriptions

  /** role.Bot, the role of webhook bot users. */
  const RoleBot: string := "bot"
  const RoleAdmin: string := "admin"

  /** A Go nil-map read: the set stored under `k`, or the empty set. */
  function SetAt(m: map<Uuid, set<Uuid>>, k: Uuid): set<Uuid> {
    if k in m then m[k] else {}
  }

  /** The name check of user groups (a name is 1 to 30 runes). */
  function CheckGroupName(name: string, field: string): (e: Option<RepoError>)
    ensures e.None? <==> 0 < |name| <= 30
  {
    if |name| == 0 || |name| > 30 then
      Some(ArgError(field, "Name must be non-empty and shorter than 31 characters"))
    else None
  }

  /** The type check of user groups (a type is at most 30 runes). */
  function CheckGroupType(groupType: string, field: string): (e: Option<RepoError>)
    ensures e.None? <==> |groupType| <= 30
  {
    if |groupType| > 30 then Some(ArgError(field, "Type must be shorter than 31 characters")) else None
  }

  /** The name check of webhooks (a name is 1 to 32 runes). */
  function CheckWebhookName(name: string, field: string): (e: Option<RepoError>)
    ensures e.None? <==> 0 < |name| <= 32
  {
    if |name| == 0 || |name| > 32 then
      Some(ArgError(field, "Name must be non-empty and shorter than 33 characters"))
    else None
  }

  /** Some group of the map already carries the name. */
  ghost predicate NameTaken(groups: map<Uuid, UserGroup>, name: string) {
    exists id :: id in groups && groups[id].name == name
  }

  /** No two groups share a name. */
  ghost predicate GroupNamesUnique(groups: map<Uuid, UserGroup>) {
    forall a, b :: a in groups && b in groups && groups[a].name == groups[b].name ==> a == b
  }

  /** Replacing a group by one with the same name keeps names unique. */
  lemma SameNameKeepsUnique(groups: map<Uuid, UserGroup>, id: Uuid, g: UserGroup)
    requires GroupNamesUnique(groups) && id in groups && g.name == groups[id].name
    ensures GroupNamesUnique(groups[id := g])
  {
  }

  /** Every group has an admin set and at most a member set; names are unique;
      stored groups carry no member or admin lists. */
  ghost predicate GroupMapsValid(groups: map<Uuid, UserGroup>, members: map<Uuid, set<Uuid>>, admins: map<Uuid, set<Uuid>>) {
    && members.Keys <= groups.Keys
    && admins.Keys == groups.Keys
    && (forall id :: id in groups ==> groups[id].id == id && groups[id].members == [] && groups[id].admins == [])
    && GroupNamesUnique(groups)
  }

  /** Touching a group's update time and replacing its member or admin set keeps the maps valid. */
  lemma TouchKeepsGroupMaps(groups: map<Uuid, UserGroup>, members: map<Uuid, set<Uuid>>, admins: map<Uuid, set<Uuid>>,
                            id: Uuid, now: Time, ms: set<Uuid>, ads: set<Uuid>)
    requires GroupMapsValid(groups, members, admins) && id in groups
    ensures GroupMapsValid(groups[id := groups[id].(updatedAt := now)], members[id := ms], admins)
    ensures GroupMapsValid(groups[id := groups[id].(updatedAt := now)], members, admins[id := ads])
  {
    SameNameKeepsUnique(groups, id, groups[id].(updatedAt := now));
  }

  /** Giving a group a name no group carries keeps names unique. */
  lemma RenameKeepsUnique(groups: map<Uuid, UserGroup>, id: Uuid, g: UserGroup)
    requires GroupNamesUnique(groups) && id in groups && !NameTaken(groups, g.name)
    ensures GroupNamesUnique(groups[id := g])
  {
  }

  /** repository.UpdateUserGroupNameArgs. */
  datatype UpdateUserGroupArgs = UpdateUserGroupArgs(
    name: Option<string>,
    description: Option<string>,
    groupType: Option<string>)

  /** The error UpdateUserGroup returns, in the order it checks. */
  ghost function UpdateGroupError(groups: map<Uuid, UserGroup>, id: Uuid, args: UpdateUserGroupArgs): Option<RepoError> {
    if id == Nil then Some(ErrNilID)
    else if id !in groups then Some(ErrNotFound)
    else if args.name.Some? && CheckGroupName(args.name.value, "args.Name").Some? then
      CheckGroupName(args.name.value, "args.Name")
    else if args.name.Some? && NameTaken(groups, args.name.value) then Some(ErrAlreadyExists)
    else if args.groupType.Some? && CheckGroupType(args.groupType.value, "args.Type").Some? then
      CheckGroupType(args.groupType.value, "args.Type")
    else None
  }

  /** The group with every given field replaced and the update time set. */
  function UpdatedGroup(g: UserGroup, args: UpdateUserGroupArgs, now: Time): UserGroup {
    g.(name := if args.name.Some? then args.name.value else g.name,
       description := if args.description.Some? then args.description.value else g.description,
       groupType := if args.groupType.Some? then args.groupType.value else g.groupType,
       updatedAt := now)
  }

  /** A successful update keeps the group maps valid. */
  lemma UpdateKeepsGroupMaps(groups: map<Uuid, UserGroup>, members: map<Uuid, set<Uuid>>, admins: map<Uuid, set<Uuid>>,
                             id: Uuid, args: UpdateUserGroupArgs, now: Time)
    requires GroupMapsValid(groups, members, admins)
    requires UpdateGroupError(groups, id, args).None?
    ensures GroupMapsValid(groups[id := UpdatedGroup(groups[id], args, now)], members, admins)
  {
    var g := UpdatedGroup(groups[id], args, now);
    if args.name.Some? {
      RenameKeepsUnique(groups, id, g);
    } else {
      SameNameKeepsUnique(groups, id, g);
    }
  }

  /** repository.UpdateWebhookArgs. */
  datatype UpdateWebhookArgs = UpdateWebhookArgs(
    description: Option<string>,
    channelID: Option<Uuid>,
    secret: Option<string>,
    name: Option<string>)

  /** The error UpdateWebhook returns once the webhook is found, in the order it checks. */
  function UpdateWebhookError(channels: map<Uuid, Channel>, args: UpdateWebhookArgs): Option<RepoError> {
    if args.channelID.Some? && args.channelID.value !in channels then
      Some(ArgError("args.ChannelID", "the Channel is not found"))
    else if args.channelID.Some? && !channels[args.channelID.value].isPublic then
      Some(ArgError("args.ChannelID", "private channels are not allowed"))
    else if args.name.Some? then CheckWebhookName(args.name.value, "args.Name")
    else None
  }

  /** The webhook record after a successful update. */
  function UpdatedWebhook(w: WebhookBot, args: UpdateWebhookArgs, now: Time): WebhookBot {
    w.(description := if args.description.Some? then args.description.value else w.description,
       channelID := if args.channelID.Some? then args.channelID.value else w.channelID,
       secret := if args.secret.Some? then args.secret.value else w.secret,
       updatedAt := if args.description.Some? || args.channelID.Some? || args.secret.Some? then now else w.updatedAt)
  }

  /** The webhook's bot user after a successful update. */
  function UpdatedBotUser(u: User, args: UpdateWebhookArgs, now: Time): User {
    if args.name.Some? then u.(displayName := args.name.value, updatedAt := now) else u
  }

  /** The bot user CreateWebhook registers for a webhook. */
  function WebhookUser(uid: Uuid, name: string, icon: Uuid, now: Time): User {
    User(uid, "Webhook#" + Base64Raw(uid), name, StatusActive, true, RoleBot, icon, "", None, now, now)
  }

  /** The user NewTestRepository registers: the active, non-bot administrator "traq"
      with no display name. */
  function InitialUser(id: Uuid, icon: Uuid, now: Time): (u: User)
    ensures u.id == id && u.name == "traq" && u.role == RoleAdmin && u.status == StatusActive && !u.bot
  {
    User(id, "traq", "", StatusActive, false, RoleAdmin, icon, "", None, now, now)
  }

  /** Distinct bot user ids give distinct webhook bot user names. */
  lemma WebhookUserNameInjective(a: Uuid, b: Uuid, nameA: string, nameB: string, iconA: Uuid, iconB: Uuid, nowA: Time, nowB: Time)
    requires WebhookUser(a, nameA, iconA, nowA).name == WebhookUser(b, nameB, iconB, nowB).name
    ensures a == b
  {
    var na, nb := WebhookUser(a, nameA, iconA, nowA).name, WebhookUser(b, nameB, iconB, nowB).name;
    assert Base64Raw(a) == na[8..] && Base64Raw(b) == nb[8..];
    Base64RawInjective(a, b);
  }

  /** The ids of a list of records, in list order. */
  function Ids<T>(xs: seq<T>, id: T -> Uuid): (ids: seq<Uuid>)
    ensures |ids| == |xs| && forall i :: 0 <= i < |xs| ==> ids[i] == id(xs[i])
  {
    if xs == [] then [] else Ids(xs[..|xs| - 1], id) + [id(xs[|xs| - 1])]
  }

  const GroupKey: UserGroup -> Uuid := (g: UserGroup) => g.id
  const WebhookKey: WebhookBot -> Uuid := (w: WebhookBot) => w.id

  /** Appending a webhook appends its id. */
  lemma AppendWebhook(ws: seq<WebhookBot>, w: WebhookBot)
    ensures Ids(ws + [w], WebhookKey) == Ids(ws, WebhookKey) + [w.id]
  {
    assert (ws + [w])[..|ws|] == ws;
  }

  /** `users[id]` in Go: the user, or the zero user. */
  function UserAt(users: map<Uuid, User>, id: Uuid): User {
    if id in users then users[id] else ZeroUser
  }

  /** A webhook record with its bot user filled in. */
  function WithBotUser(users: map<Uuid, User>, w: WebhookBot): WebhookBot {
    w.(botUser := UserAt(users, w.botUserID))
  }

  /** The listing keeps every webhook when `creator` is None, else those the creator made. */
  predicate Kept(w: WebhookBot, creator: Option<Uuid>) {
    creator.None? || w.creatorID == creator.value
  }

  /** The webhooks under `keys`, in key order, with the bot user filled in, as far as they are kept. */
  function WebhooksAt(webhooks: map<Uuid, WebhookBot>, users: map<Uuid, User>, keys: seq<Uuid>, creator: Option<Uuid>): seq<WebhookBot>
    requires forall k :: k in keys ==> k in webhooks
  {
    if keys == [] then []
    else
      var before := WebhooksAt(webhooks, users, keys[..|keys| - 1], creator);
      var v := webhooks[keys[|keys| - 1]];
      if Kept(v, creator) then before + [WithBotUser(users, v)] else before
  }

  /** The keys of `keys` whose webhooks are kept, in key order. */
  function KeptKeys(webhooks: map<Uuid, WebhookBot>, keys: seq<Uuid>, creator: Option<Uuid>): (r: seq<Uuid>)
    requires forall k :: k in keys ==> k in webhooks
    ensures forall k :: k in r <==> k in keys && Kept(webhooks[k], creator)
  {
    if keys == [] then []
    else
      var before := KeptKeys(webhooks, keys[..|keys| - 1], creator);
      var k := keys[|keys| - 1];
      assert forall x :: x in keys <==> x in keys[..|keys| - 1] || x == k;
      if Kept(webhooks[k], creator) then before + [k] else before
  }

  /** Filtering keeps keys distinct. */
  lemma {:induction false} KeptKeysDistinct(webhooks: map<Uuid, WebhookBot>, keys: seq<Uuid>, creator: Option<Uuid>)
    requires forall k :: k in keys ==> k in webhooks
    requires Distinct(keys)
    ensures Distinct(KeptKeys(webhooks, keys, creator))
  {
    if keys != [] {
      var init := keys[..|keys| - 1];
      assert Distinct(init);
      KeptKeysDistinct(webhooks, init, creator);
      assert keys[|keys| - 1] !in init;
      if Kept(webhooks[keys[|keys| - 1]], creator) {
        DistinctSnoc(KeptKeys(webhooks, init, creator), keys[|keys| - 1]);
      }
    }
  }

  /** The listed webhooks are the kept ones, in key order. */
  lemma {:induction false} WebhooksAtIds(webhooks: map<Uuid, WebhookBot>, users: map<Uuid, User>, keys: seq<Uuid>, creator: Option<Uuid>)
    requires forall k :: k in keys ==> k in webhooks && webhooks[k].id == k
    ensures Ids(WebhooksAt(webhooks, users, keys, creator), WebhookKey) == KeptKeys(webhooks, keys, creator)
  {
    if keys != [] {
      var init := keys[..|keys| - 1];
      WebhooksAtIds(webhooks, users, init, creator);
      var v := webhooks[keys[|keys| - 1]];
      if Kept(v, creator) {
        AppendWebhook(WebhooksAt(webhooks, users, init, creator), WithBotUser(users, v));
      }
    }
  }

  /** Each webhook of `ws` is a kept stored one with its bot user filled in. */
  predicate FilledFrom(webhooks: map<Uuid, WebhookBot>, users: map<Uuid, User>, ws: seq<WebhookBot>, creator: Option<Uuid>) {
    forall i :: 0 <= i < |ws| ==> ws[i].id in webhooks && ws[i] == WithBotUser(users, webhooks[ws[i].id]) && Kept(ws[i], creator)
  }

  /** The listed webhooks are stored ones, kept and filled in. */
  lemma {:induction false} WebhooksAtRecords(webhooks: map<Uuid, WebhookBot>, users: map<Uuid, User>, keys: seq<Uuid>, creator: Option<Uuid>)
    requires forall k :: k in keys ==> k in webhooks && webhooks[k].id == k
    ensures FilledFrom(webhooks, users, WebhooksAt(webhooks, users, keys, creator), creator)
  {
    if keys != [] {
      WebhooksAtRecords(webhooks, users, keys[..|keys| - 1], creator);
      assert keys[|keys| - 1] in keys;
    }
  }

  /** Over distinct keys, WebhooksAt lists exactly the kept webhooks, once each. */
  lemma WebhooksAtLists(webhooks: map<Uuid, WebhookBot>, users: map<Uuid, User>, keys: seq<Uuid>, creator: Option<Uuid>)
    requires forall k :: k in keys ==> k in webhooks && webhooks[k].id == k
    requires Distinct(keys)
    ensures FilledFrom(webhooks, users, WebhooksAt(webhooks, users, keys, creator), creator)
    ensures Distinct(Ids(WebhooksAt(webhooks, users, keys, creator), WebhookKey))
    ensures forall id :: id in Ids(WebhooksAt(webhooks, users, keys, creator), WebhookKey) <==> id in keys && Kept(webhooks[id], creator)
  {
    WebhooksAtIds(webhooks, users, keys, creator);
    WebhooksAtRecords(webhooks, users, keys, creator);
    KeptKeysDistinct(webhooks, keys, creator);
  }

  class TestRepository {
    var FS: Store
    var Users: map<Uuid, User>
    var UserGroups: map<Uuid, UserGroup>
    var UserGroupMembers: map<Uuid, set<Uuid>>
    var UserGroupAdmins: map<Uuid, set<Uuid>>
    var Tags: map<Uuid, Tag>
    var UserTags: map<Uuid, map<Uuid, UsersTag>>
    var Channels: map<Uuid, Channel>
    var ChannelSubscribes: map<Uuid, map<Uuid, Level>>
    var Messages: map<Uuid, Message>
    var MessageUnreads: map<Uuid, set<Uuid>>
    var Stars: map<Uuid, set<Uuid>>
    var Files: map<Uuid, File>
    var FilesACL: map<Uuid, Acl>
    var Webhooks: map<Uuid, WebhookBot>

    /** Every file is stored under its own non-Nil id, has an ACL entry, and has
        consistent thumbnail fields. */
    ghost predicate FilesValid()
      reads this`Files, this`FilesACL
    {
      forall id :: id in Files ==>
        Files[id].id == id && id != Nil && id in FilesACL && ThumbnailConsistent(Files[id])
    }

    /** Every group has an admin set and at most a member set; names are unique;
        stored groups carry no member or admin lists. */
    ghost predicate GroupsValid()
      reads this`UserGroups, this`UserGroupMembers, this`UserGroupAdmins
    {
      GroupMapsValid(UserGroups, UserGroupMembers, UserGroupAdmins)
    }

    /** Tags are stored under their ids with unique names; a user's tag entry is keyed
        by the user and the tag it records. */
    ghost predicate TagsValid()
      reads this`Tags, this`UserTags
    {
      && (forall id :: id in Tags ==> Tags[id].id == id)
      && (forall a, b :: a in Tags && b in Tags && Tags[a].name == Tags[b].name ==> a == b)
      && (forall u, t :: u in UserTags && t in UserTags[u] ==>
            UserTags[u][t].userID == u && UserTags[u][t].tagID == t)
    }

    ghost predicate MessagesValid()
      reads this`Messages
    {
      forall id :: id in Messages ==> Messages[id].id == id
    }

    /** Users are stored under their ids; every webhook has its own registered bot user. */
    ghost predicate UsersValid()
      reads this`Users, this`Webhooks
    {
      && (forall id :: id in Users ==> Users[id].id == id)
      && (forall id :: id in Webhooks ==>
            Webhooks[id].id == id && Webhooks[id].botUserID in Users && Webhooks[id].botUser == ZeroUser)
      && (forall a, b :: a in Webhooks && b in Webhooks && Webhooks[a].botUserID == Webhooks[b].botUserID ==> a == b)
    }

    ghost predicate Valid()
      reads this
    {
      FilesValid() && GroupsValid() && TagsValid() && MessagesValid() && UsersValid()
    }

    /** NewTestRepository: empty stores, then the administrator "traq" registered through
        CreateUser. `icon` is the outcome of generating that user's icon file; when it fails,
        CreateUser's error is discarded and no user is registered. */
    constructor (adminID: Uuid, icon: Result<Uuid, RepoError>, now: Time)
      requires adminID != Nil
      ensures Valid()
      ensures icon.Success? ==> Users == map[adminID := InitialUser(adminID, icon.value, now)]
      ensures icon.Failure? ==> Users == map[]
      ensures FS == map[] && UserGroups == map[] && UserGroupMembers == map[]
      ensures UserGroupAdmins == map[] && Tags == map[] && UserTags == map[] && Channels == map[]
      ensures ChannelSubscribes == map[] && Messages == map[] && MessageUnreads == map[]
      ensures Stars == map[] && Files == map[] && FilesACL == map[] && Webhooks == map[]
    {
      FS, UserGroups, UserGroupMembers, UserGroupAdmins := map[], map[], map[], map[];
      Users := if icon.Success? then map[adminID := InitialUser(adminID, icon.value, now)] else map[];
      Tags, UserTags, Channels, ChannelSubscribes, Messages := map[], map[], map[], map[], map[];
      MessageUnreads, Stars, Files, FilesACL, Webhooks := map[], map[], map[], map[], map[];
    }

    // ---------------------------------------------------------------- files

    /** `repo.FilesACL[fileID]`: the file's ACL, empty when it has none. */
    function AclOf(fileID: Uuid): Acl
      reads this`FilesACL
    {
      if fileID in FilesACL then FilesACL[fileID] else map[]
    }

    method GetFileMeta(fileID: Uuid) returns (r: Result<File, RepoError>)
      ensures r.Success? <==> fileID != Nil && fileID in Files
      ensures r.Failure? ==> r.error == ErrNotFound
      ensures r.Success? ==> r.value == Files[fileID]
    {
      if fileID == Nil {
        return Failure(ErrNotFound);
      }
      if fileID !in Files {
        return Failure(ErrNotFound);
      }
      r := Success(Files[fileID]);
    }

    /** Removes the record and the primary blob; the ACL and the thumbnail blob stay. */
    method DeleteFile(fileID: Uuid) returns (err: Option<RepoError>)
      requires FilesValid()
      modifies this`Files, this`FS
      ensures FilesValid()
      ensures fileID == Nil ==> err == Some(ErrNilID) && Files == old(Files) && FS == old(FS)
      ensures fileID != Nil && fileID !in old(Files) ==>
        err == Some(ErrNotFound) && Files == old(Files) && FS == old(FS)
      ensures fileID != Nil && fileID in old(Files) ==>
        var key := PrimaryKey(fileID, old(Files)[fileID].fileType);
        && Files == old(Files) - {fileID}
        && FS == old(FS) - {key}
        && err == (if key in old(FS) then None else Some(ErrFileNotFound))
    {
      if fileID == Nil {
        return Some(ErrNilID);
      }
      if fileID !in Files {
        return Some(ErrNotFound);
      }
      var meta := Files[fileID];
      Files := Files - {fileID};
      var key := PrimaryKey(meta.id, meta.fileType);
      if key in FS {
        FS := FS - {key};
        err := None;
      } else {
        err := Some(ErrFileNotFound);
      }
    }

    /** The sequential outcome of SaveFile once its store writer and thumbnail producer
        have settled. `validation` is the result of args.Validate(), `storeError` the
        store writer's result, `thumbnail` what the thumbnail producer achieved, and
        `md5` the digest the hash consumer computes over the uploaded bytes. */
    method SaveFile(args: SaveFileArgs, validation: Option<RepoError>, newID: Uuid, now: Time,
                    storeError: Option<RepoError>, thumbnail: ThumbnailOutcome,
                    md5: seq<Byte> -> seq<Byte>)
      returns (r: Result<File, RepoError>)
      requires FilesValid()
      requires newID != Nil && newID !in Files
      modifies this`Files, this`FilesACL, this`FS
      ensures FilesValid()
      ensures validation.Some? ==>
        r == Failure(validation.value) && Files == old(Files) && FilesACL == old(FilesACL) && FS == old(FS)
      ensures validation.None? && storeError.Some? ==>
        && r == Failure(storeError.value)
        && Files == old(Files) && FilesACL == old(FilesACL)
        && FS == StoreThumbnail(old(FS), newID, thumbnail)
      ensures validation.None? && storeError.None? ==>
        && r.Success?
        && r.value.id == newID
        && r.value.hash == HexEncode(md5(args.src))
        && r.value == WithThumbnail(NewFileRecord(args, newID, now), ThumbnailBounds(thumbnail)).(hash := r.value.hash)
        && Files == old(Files)[newID := r.value]
        && FilesACL == old(FilesACL)[newID := args.acl]
        && FS == StorePrimary(StoreThumbnail(old(FS), newID, thumbnail), newID, args.fileName, args.mimeType, args.fileType, args.src)
        && Open(r.value, FS) == Success(args.src)
        && (r.value.hasThumbnail ==> thumbnail.Encoded? && OpenThumbnail(r.value, FS) == Success(thumbnail.png))
    {
      if validation.Some? {
        return Failure(validation.value);
      }
      var f := NewFileRecord(args, newID, now);
      // the thumbnail producer: its blob write, then the fields from the rectangle it returns
      FS := StoreThumbnail(FS, newID, thumbnail);
      var size := ThumbnailBounds(thumbnail);
      f := WithThumbnail(f, size);
      if storeError.Some? {
        return Failure(storeError.value);
      }
      // the store writer
      FS := StorePrimary(FS, f.id, f.name, f.mime, f.fileType, args.src);
      PrimaryAndThumbnailKeysDiffer(newID, newID, args.fileType);
      f := f.(hash := HexEncode(md5(args.src)));
      Files := Files[newID := f];
      FilesACL := FilesACL[newID := args.acl];
      r := Success(f);
    }

    /** Deny-overrides-allow over the file's ACL, for whatever order the map yields its entries. */
    method IsFileAccessible(fileID: Uuid, userID: Uuid) returns (r: Result<bool, RepoError>)
      ensures fileID == Nil ==> r == Failure(ErrNilID)
      ensures fileID != Nil && fileID !in Files ==> r == Failure(ErrNotFound)
      ensures fileID != Nil && fileID in Files ==> r == Success(Accessible(AclOf(fileID), userID))
    {
      if fileID == Nil {
        return Failure(ErrNilID);
      }
      if fileID !in Files {
        return Failure(ErrNotFound);
      }
      var acl := AclOf(fileID);
      var allow := false;
      var rest := acl.Keys;
      while rest != {}
        invariant rest <= acl.Keys
        invariant forall s :: s in acl && s !in rest && Applies(s, userID) ==> acl[s]
        invariant allow <==> exists s :: s in acl && s !in rest && Applies(s, userID) && acl[s]
        decreases rest
      {
        var uid :| uid in rest;
        if Applies(uid, userID) {
          if acl[uid] {
            allow := true;
          } else {
            return Success(false);
          }
        }
        rest := rest - {uid};
      }
      return Success(allow);
    }

    // ---------------------------------------------------------------- user groups

    function MembersOf(groupID: Uuid): set<Uuid>
      reads this`UserGroupMembers
    {
      SetAt(UserGroupMembers, groupID)
    }

    function AdminsOf(groupID: Uuid): set<Uuid>
      reads this`UserGroupAdmins
    {
      SetAt(UserGroupAdmins, groupID)
    }

    /** The loop over repo.UserGroups that looks for a group by name. */
    method FindGroupByName(name: string) returns (found: Option<Uuid>)
      ensures found.Some? ==> found.value in UserGroups && UserGroups[found.value].name == name
      ensures found.None? <==> !NameTaken(UserGroups, name)
    {
      var rest := UserGroups.Keys;
      while rest != {}
        invariant rest <= UserGroups.Keys
        invariant forall id :: id in UserGroups && id !in rest ==> UserGroups[id].name != name
        decreases rest
      {
        var id :| id in rest;
        if UserGroups[id].name == name {
          return Some(id);
        }
        rest := rest - {id};
      }
      return None;
    }

    method CreateUserGroup(name: string, description: string, gType: string, adminID: Uuid,
                           newID: Uuid, now: Time)
      returns (r: Result<UserGroup, RepoError>)
      requires GroupsValid()
      requires newID != Nil && newID !in UserGroups
      modifies this`UserGroups, this`UserGroupAdmins
      ensures GroupsValid()
      ensures CheckGroupName(name, "name").Some? ==> r == Failure(CheckGroupName(name, "name").value)
      ensures CheckGroupName(name, "name").None? && CheckGroupType(gType, "Type").Some? ==>
        r == Failure(CheckGroupType(gType, "Type").value)
      ensures CheckGroupName(name, "name").None? && CheckGroupType(gType, "Type").None? && NameTaken(old(UserGroups), name) ==>
        r == Failure(ErrAlreadyExists)
      ensures r.Failure? ==> UserGroups == old(UserGroups) && UserGroupAdmins == old(UserGroupAdmins)
      ensures r.Success? <==> 0 < |name| <= 30 && |gType| <= 30 && !NameTaken(old(UserGroups), name)
      ensures r.Success? ==>
        var g := UserGroup(newID, name, description, gType, now, now, [], []);
        && UserGroups == old(UserGroups)[newID := g]
        && UserGroupAdmins == old(UserGroupAdmins)[newID := {adminID}]
        && MembersOf(newID) == {}
        && r.value == g.(admins := [adminID])
    {
      var g := UserGroup(newID, name, description, gType, now, now, [], []);
      if |name| == 0 || |name| > 30 {
        return Failure(ArgError("name", "Name must be non-empty and shorter than 31 characters"));
      }
      if |gType| > 30 {
        return Failure(ArgError("Type", "Type must be shorter than 31 characters"));
      }
      var dup := FindGroupByName(name);
      if dup.Some? {
        return Failure(ErrAlreadyExists);
      }
      UserGroups := UserGroups[newID := g];
      UserGroupAdmins := UserGroupAdmins[newID := {adminID}];
      r := Success(g.(admins := [adminID]));
    }

    /** The checks and field updates of UpdateUserGroup on the stored group, in the
        order it makes them; `changed` says whether the result is to be stored. */
    method ApplyGroupArgs(id: Uuid, args: UpdateUserGroupArgs, now: Time)
      returns (g: UserGroup, changed: bool, err: Option<RepoError>)
      requires id != Nil && id in UserGroups
      ensures err == UpdateGroupError(UserGroups, id, args)
      ensures changed <==> err.None? && (args.description.Some? || args.groupType.Some?)
      ensures changed ==> g == UpdatedGroup(UserGroups[id], args, now)
    {
      g := UserGroups[id];
      changed := false;
      if args.name.Some? {
        if |args.name.value| == 0 || |args.name.value| > 30 {
          return g, false, Some(ArgError("args.Name", "Name must be non-empty and shorter than 31 characters"));
        }
        var dup := FindGroupByName(args.name.value);
        if dup.Some? {
          return g, false, Some(ErrAlreadyExists);
        }
        g := g.(name := args.name.value);
      }
      if args.description.Some? {
        g := g.(description := args.description.value);
        changed := true;
      }
      if args.groupType.Some? {
        if |args.groupType.value| > 30 {
          return g, false, Some(ArgError("args.Type", "Type must be shorter than 31 characters"));
        }
        g := g.(groupType := args.groupType.value);
        changed := true;
      }
      if changed {
        g := g.(updatedAt := now);
      }
      err := None;
    }

    /** Only a Description or Type change marks the group changed; a Name-only update
        passes the checks and is then not stored. The duplicate check runs over every
        group, the updated one included. */
    method UpdateUserGroup(id: Uuid, args: UpdateUserGroupArgs, now: Time) returns (err: Option<RepoError>)
      requires GroupsValid()
      modifies this`UserGroups
      ensures GroupsValid()
      ensures err == UpdateGroupError(old(UserGroups), id, args)
      ensures UserGroups ==
        if err.None? && (args.description.Some? || args.groupType.Some?) then
          old(UserGroups)[id := UpdatedGroup(old(UserGroups)[id], args, now)]
        else old(UserGroups)
    {
      if id == Nil {
        return Some(ErrNilID);
      }
      if id !in UserGroups {
        return Some(ErrNotFound);
      }
      var g, changed;
      g, changed, err := ApplyGroupArgs(id, args, now);
      if changed {
        UpdateKeepsGroupMaps(UserGroups, UserGroupMembers, UserGroupAdmins, id, args, now);
        UserGroups := UserGroups[id := g];
      }
    }

    method DeleteUserGroup(id: Uuid) returns (err: Option<RepoError>)
      requires GroupsValid()
      modifies this`UserGroups, this`UserGroupMembers, this`UserGroupAdmins
      ensures GroupsValid()
      ensures err == (if id == Nil then Some(ErrNilID) else if id !in old(UserGroups) then Some(ErrNotFound) else None)
      ensures err.Some? ==>
        UserGroups == old(UserGroups) && UserGroupMembers == old(UserGroupMembers) && UserGroupAdmins == old(UserGroupAdmins)
      ensures err.None? ==>
        && UserGroups == old(UserGroups) - {id}
        && UserGroupMembers == old(UserGroupMembers) - {id}
        && UserGroupAdmins == old(UserGroupAdmins) - {id}
    {
      if id == Nil {
        return Some(ErrNilID);
      }
      if id !in UserGroups {
        return Some(ErrNotFound);
      }
      UserGroups := UserGroups - {id};
      UserGroupMembers := UserGroupMembers - {id};
      UserGroupAdmins := UserGroupAdmins - {id};
      err := None;
    }

    /** A query result for group `id`: the stored record with its members and admins
        listed once each, in map order. */
    ghost predicate AssembledFrom(g: UserGroup, id: Uuid)
      reads this`UserGroups, this`UserGroupMembers, this`UserGroupAdmins
    {
      && id in UserGroups
      && g == UserGroups[id].(members := g.members, admins := g.admins)
      && Distinct(g.members) && Elements(g.members) == MembersOf(id)
      && Distinct(g.admins) && Elements(g.admins) == AdminsOf(id)
    }

    /** Appends the member and admin ranges to a stored group. */
    method Assemble(id: Uuid) returns (g: UserGroup)
      requires GroupsValid() && id in UserGroups
      ensures AssembledFrom(g, id)
    {
      var members := SetToSeq(MembersOf(id));
      var admins := SetToSeq(AdminsOf(id));
      assert Elements(members) == MembersOf(id);
      assert Elements(admins) == AdminsOf(id);
      g := UserGroups[id].(members := UserGroups[id].members + members, admins := UserGroups[id].admins + admins);
    }

    method GetUserGroup(id: Uuid) returns (r: Result<UserGroup, RepoError>)
      requires GroupsValid()
      ensures r.Success? <==> id != Nil && id in UserGroups
      ensures r.Failure? ==> r.error == ErrNotFound
      ensures r.Success? ==> AssembledFrom(r.value, id)
    {
      if id == Nil {
        return Failure(ErrNotFound);
      }
      if id !in UserGroups {
        return Failure(ErrNotFound);
      }
      var g := Assemble(id);
      r := Success(g);
    }

    method GetUserGroupByName(name: string) returns (r: Result<UserGroup, RepoError>)
      requires GroupsValid()
      ensures r.Success? <==> |name| > 0 && NameTaken(UserGroups, name)
      ensures r.Failure? ==> r.error == ErrNotFound
      ensures r.Success? ==> r.value.name == name && AssembledFrom(r.value, r.value.id)
    {
      if |name| == 0 {
        return Failure(ErrNotFound);
      }
      var found := FindGroupByName(name);
      if found.None? {
        return Failure(ErrNotFound);
      }
      var g := Assemble(found.value);
      r := Success(g);
    }

    /** The groups the user is a member of, each once, in map order. */
    method GetUserBelongingGroupIDs(userID: Uuid) returns (groups: seq<Uuid>)
      ensures Distinct(groups)
      ensures forall g :: g in groups <==> userID != Nil && g in UserGroupMembers && userID in UserGroupMembers[g]
    {
      groups := [];
      if userID == Nil {
        return;
      }
      var rest := UserGroupMembers.Keys;
      while rest != {}
        invariant rest <= UserGroupMembers.Keys
        invariant Distinct(groups)
        invariant forall g :: g in groups <==> g in UserGroupMembers && g !in rest && userID in UserGroupMembers[g]
        decreases rest
      {
        var gid :| gid in rest;
        if userID in UserGroupMembers[gid] {
          groups := groups + [gid];
        }
        rest := rest - {gid};
      }
    }

    /** Every group, assembled, once each. */
    method GetAllUserGroups() returns (groups: seq<UserGroup>)
      requires GroupsValid()
      ensures |groups| == |UserGroups|
      ensures forall i :: 0 <= i < |groups| ==> AssembledFrom(groups[i], groups[i].id)
      ensures Distinct(Ids(groups, GroupKey))
      ensures forall id :: id in Ids(groups, GroupKey) <==> id in UserGroups
    {
      var keys := SetToSeq(UserGroups.Keys);
      groups := [];
      for i := 0 to |keys|
        invariant |groups| == i
        invariant forall j :: 0 <= j < i ==> AssembledFrom(groups[j], keys[j]) && groups[j].id == keys[j]
      {
        var g := Assemble(keys[i]);
        groups := groups + [g];
      }
      assert Ids(groups, GroupKey) == keys;
    }

    /** A missing group is a successful no-op; repeating the call changes nothing further. */
    method AddUserToGroup(userID: Uuid, groupID: Uuid, role: string, now: Time) returns (err: Option<RepoError>)
      requires GroupsValid()
      modifies this`UserGroups, this`UserGroupMembers
      ensures GroupsValid()
      ensures err == (if userID == Nil || groupID == Nil then Some(ErrNilID) else None)
      ensures err.Some? || groupID !in old(UserGroups) ==>
        UserGroups == old(UserGroups) && UserGroupMembers == old(UserGroupMembers)
      ensures err.None? && groupID in old(UserGroups) ==>
        && UserGroupMembers == old(UserGroupMembers)[groupID := old(MembersOf(groupID)) + {userID}]
        && UserGroups == if userID in old(MembersOf(groupID)) then old(UserGroups)
                         else old(UserGroups)[groupID := old(UserGroups)[groupID].(updatedAt := now)]
      ensures err.None? && userID in old(MembersOf(groupID)) ==>
        UserGroups == old(UserGroups) && UserGroupMembers == old(UserGroupMembers)
    {
      if userID == Nil || groupID == Nil {
        return Some(ErrNilID);
      }
      err := None;
      if groupID !in UserGroups {
        return;
      }
      var g := UserGroups[groupID];
      // a group without a member set gets an empty one first
      var users := MembersOf(groupID);
      if userID !in users {
        TouchKeepsGroupMaps(UserGroups, UserGroupMembers, UserGroupAdmins, groupID, now, users + {userID}, {});
        UserGroupMembers := UserGroupMembers[groupID := users + {userID}];
        UserGroups := UserGroups[groupID := g.(updatedAt := now)];
      } else {
        assert users + {userID} == users;
        UserGroupMembers := UserGroupMembers[groupID := users];
      }
    }

    /** A missing group is a successful no-op; repeating the call changes nothing further. */
    method RemoveUserFromGroup(userID: Uuid, groupID: Uuid, now: Time) returns (err: Option<RepoError>)
      requires GroupsValid()
      modifies this`UserGroups, this`UserGroupMembers
      ensures GroupsValid()
      ensures err == (if userID == Nil || groupID == Nil then Some(ErrNilID) else None)
      ensures err.Some? || groupID !in old(UserGroups) || userID !in old(MembersOf(groupID)) ==>
        UserGroups == old(UserGroups) && UserGroupMembers == old(UserGroupMembers)
      ensures err.None? && groupID in old(UserGroups) && userID in old(MembersOf(groupID)) ==>
        && UserGroupMembers == old(UserGroupMembers)[groupID := old(MembersOf(groupID)) - {userID}]
        && UserGroups == old(UserGroups)[groupID := old(UserGroups)[groupID].(updatedAt := now)]
    {
      if userID == Nil || groupID == Nil {
        return Some(ErrNilID);
      }
      err := None;
      if groupID !in UserGroups {
        return;
      }
      var g := UserGroups[groupID];
      if groupID in UserGroupMembers && userID in UserGroupMembers[groupID] {
        TouchKeepsGroupMaps(UserGroups, UserGroupMembers, UserGroupAdmins, groupID, now, UserGroupMembers[groupID] - {userID}, {});
        UserGroupMembers := UserGroupMembers[groupID := UserGroupMembers[groupID] - {userID}];
        UserGroups := UserGroups[groupID := g.(updatedAt := now)];
      }
    }

    /** A missing group is a successful no-op; repeating the call changes nothing further. */
    method AddUserToGroupAdmin(userID: Uuid, groupID: Uuid, now: Time) returns (err: Option<RepoError>)
      requires GroupsValid()
      modifies this`UserGroups, this`UserGroupAdmins
      ensures GroupsValid()
      ensures err == (if userID == Nil || groupID == Nil then Some(ErrNilID) else None)
      ensures err.Some? || groupID !in old(UserGroups) || userID in old(AdminsOf(groupID)) ==>
        UserGroups == old(UserGroups) && UserGroupAdmins == old(UserGroupAdmins)
      ensures err.None? && groupID in old(UserGroups) && userID !in old(AdminsOf(groupID)) ==>
        && UserGroupAdmins == old(UserGroupAdmins)[groupID := old(AdminsOf(groupID)) + {userID}]
        && UserGroups == old(UserGroups)[groupID := old(UserGroups)[groupID].(updatedAt := now)]
    {
      if userID == Nil || groupID == Nil {
        return Some(ErrNilID);
      }
      err := None;
      if groupID !in UserGroups {
        return;
      }
      var g := UserGroups[groupID];
      var users := UserGroupAdmins[groupID];
      if userID !in users {
        TouchKeepsGroupMaps(UserGroups, UserGroupMembers, UserGroupAdmins, groupID, now, {}, users + {userID});
        UserGroupAdmins := UserGroupAdmins[groupID := users + {userID}];
        UserGroups := UserGroups[groupID := g.(updatedAt := now)];
      }
    }

    /** A missing group is a successful no-op; repeating the call changes nothing further. */
    method RemoveUserFromGroupAdmin(userID: Uuid, groupID: Uuid, now: Time) returns (err: Option<RepoError>)
      requires GroupsValid()
      modifies this`UserGroups, this`UserGroupAdmins
      ensures GroupsValid()
      ensures err == (if userID == Nil || groupID == Nil then Some(ErrNilID) else None)
      ensures err.Some? || groupID !in old(UserGroups) || userID !in old(AdminsOf(groupID)) ==>
        UserGroups == old(UserGroups) && UserGroupAdmins == old(UserGroupAdmins)
      ensures err.None? && groupID in old(UserGroups) && userID in old(AdminsOf(groupID)) ==>
        && UserGroupAdmins == old(UserGroupAdmins)[groupID := old(AdminsOf(groupID)) - {userID}]
        && UserGroups == old(UserGroups)[groupID := old(UserGroups)[groupID].(updatedAt := now)]
    {
      if userID == Nil || groupID == Nil {
        return Some(ErrNilID);
      }
      err := None;
      if groupID !in UserGroups {
        return;
      }
      var g := UserGroups[groupID];
      if groupID in UserGroupAdmins && userID in UserGroupAdmins[groupID] {
        TouchKeepsGroupMaps(UserGroups, UserGroupMembers, UserGroupAdmins, groupID, now, {}, UserGroupAdmins[groupID] - {userID});
        UserGroupAdmins := UserGroupAdmins[groupID := UserGroupAdmins[groupID] - {userID}];
        UserGroups := UserGroups[groupID := g.(updatedAt := now)];
      }
    }

    // ---------------------------------------------------------------- tags

    /** `repo.Tags[id]`: the tag, or the zero tag. */
    function TagOrZero(id: Uuid): Tag
      reads this`Tags
    {
      if id in Tags then Tags[id] else ZeroTag
    }

    /** `repo.UserTags[userID]`: the user's tags, empty when there are none. */
    function TagsOf(userID: Uuid): map<Uuid, UsersTag>
      reads this`UserTags
    {
      if userID in UserTags then UserTags[userID] else map[]
    }

    method GetTagByID(id: Uuid) returns (r: Result<Tag, RepoError>)
      ensures r.Success? <==> id in Tags
      ensures r.Failure? ==> r.error == ErrNotFound
      ensures r.Success? ==> r.value == Tags[id]
    {
      if id !in Tags {
        return Failure(ErrNotFound);
      }
      r := Success(Tags[id]);
    }

    /** The loop over repo.Tags that looks for a tag by name. */
    method FindTagByName(name: string) returns (found: Option<Uuid>)
      ensures found.Some? ==> found.value in Tags && Tags[found.value].name == name
      ensures found.None? <==> forall id :: id in Tags ==> Tags[id].name != name
    {
      var rest := Tags.Keys;
      while rest != {}
        invariant rest <= Tags.Keys
        invariant forall id :: id in Tags && id !in rest ==> Tags[id].name != name
        decreases rest
      {
        var id :| id in rest;
        if Tags[id].name == name {
          return Some(id);
        }
        rest := rest - {id};
      }
      return None;
    }

    /** An empty name is NotFound; a name over 30 runes is an argument error; an
        existing tag of that name is returned unchanged, otherwise a new one is stored. */
    method GetOrCreateTag(name: string, newID: Uuid, now: Time) returns (r: Result<Tag, RepoError>)
      requires TagsValid()
      requires newID != Nil && newID !in Tags
      modifies this`Tags
      ensures TagsValid()
      ensures |name| == 0 ==> r == Failure(ErrNotFound)
      ensures |name| > 30 ==> r == Failure(ArgError("name", "tag must be non-empty and shorter than 31 characters"))
      ensures r.Failure? ==> Tags == old(Tags)
      ensures r.Success? <==> 0 < |name| <= 30
      ensures r.Success? ==> r.value.name == name && r.value.id in Tags && Tags[r.value.id] == r.value
      ensures r.Success? && r.value.id in old(Tags) ==> Tags == old(Tags)
      ensures r.Success? && r.value.id !in old(Tags) ==>
        && (forall id :: id in old(Tags) ==> old(Tags)[id].name != name)
        && r.value == Tag(newID, name, now, now)
        && Tags == old(Tags)[newID := r.value]
    {
      if |name| == 0 {
        return Failure(ErrNotFound);
      }
      if |name| > 30 {
        return Failure(ArgError("name", "tag must be non-empty and shorter than 31 characters"));
      }
      var found := FindTagByName(name);
      if found.Some? {
        return Success(Tags[found.value]);
      }
      var t := Tag(newID, name, now, now);
      Tags := Tags[newID := t];
      r := Success(t);
    }

    /** Attaches a tag to a user; the tag itself is not looked up. */
    method AddUserTag(userID: Uuid, tagID: Uuid, now: Time) returns (err: Option<RepoError>)
      requires TagsValid()
      modifies this`UserTags
      ensures TagsValid()
      ensures userID == Nil || tagID == Nil ==> err == Some(ErrNilID)
      ensures userID != Nil && tagID != Nil && tagID in old(TagsOf(userID)) ==> err == Some(ErrAlreadyExists)
      ensures err.Some? ==> UserTags == old(UserTags)
      ensures err.None? <==> userID != Nil && tagID != Nil && tagID !in old(TagsOf(userID))
      ensures err.None? ==>
        UserTags == old(UserTags)[userID := old(TagsOf(userID))[tagID := UsersTag(userID, tagID, false, now, now, ZeroTag)]]
    {
      if userID == Nil || tagID == Nil {
        return Some(ErrNilID);
      }
      var ut := UsersTag(userID, tagID, false, now, now, ZeroTag);
      var tags := TagsOf(userID);
      if tagID in tags {
        return Some(ErrAlreadyExists);
      }
      UserTags := UserTags[userID := tags[tagID := ut]];
      err := None;
    }

    /** The source ranges over the user's tags comparing keys to tagID: a key lookup. */
    method ChangeUserTagLock(userID: Uuid, tagID: Uuid, locked: bool, now: Time) returns (err: Option<RepoError>)
      requires TagsValid()
      modifies this`UserTags
      ensures TagsValid()
      ensures err == (if userID == Nil || tagID == Nil then Some(ErrNilID)
                      else if tagID !in old(TagsOf(userID)) then Some(ErrNotFound) else None)
      ensures err.Some? ==> UserTags == old(UserTags)
      ensures err.None? ==>
        UserTags == old(UserTags)[userID := old(TagsOf(userID))[tagID := old(TagsOf(userID))[tagID].(isLocked := locked, updatedAt := now)]]
    {
      if userID == Nil || tagID == Nil {
        return Some(ErrNilID);
      }
      var tags: map<Uuid, UsersTag> := TagsOf(userID);
      if tagID !in tags {
        return Some(ErrNotFound);
      }
      var tag := tags[tagID].(isLocked := locked, updatedAt := now);
      UserTags := UserTags[userID := tags[tagID := tag]];
      err := None;
    }

    method DeleteUserTag(userID: Uuid, tagID: Uuid) returns (err: Option<RepoError>)
      requires TagsValid()
      modifies this`UserTags
      ensures TagsValid()
      ensures err == (if userID == Nil || tagID == Nil then Some(ErrNilID) else None)
      ensures UserTags == if err.None? && userID in old(UserTags) then old(UserTags)[userID := old(UserTags)[userID] - {tagID}]
                          else old(UserTags)
    {
      if userID == Nil || tagID == Nil {
        return Some(ErrNilID);
      }
      if userID in UserTags {
        UserTags := UserTags[userID := UserTags[userID] - {tagID}];
      }
      err := None;
    }

    method GetUserTag(userID: Uuid, tagID: Uuid) returns (r: Result<UsersTag, RepoError>)
      ensures r.Success? <==> tagID in TagsOf(userID)
      ensures r.Failure? ==> r.error == ErrNotFound
      ensures r.Success? ==>
        r.value == TagsOf(userID)[tagID].(tag := TagOrZero(TagsOf(userID)[tagID].tagID))
    {
      if userID !in UserTags {
        return Failure(ErrNotFound);
      }
      var tags := UserTags[userID];
      if tagID !in tags {
        return Failure(ErrNotFound);
      }
      var ut := tags[tagID];
      r := Success(ut.(tag := TagOrZero(ut.tagID)));
    }

    /** The user's tags, each once, with the tag record filled in. */
    method GetUserTagsByUserID(userID: Uuid) returns (tags: seq<UsersTag>)
      requires TagsValid()
      ensures |tags| == |TagsOf(userID)|
      ensures forall i :: 0 <= i < |tags| ==>
        tags[i].tagID in TagsOf(userID) && tags[i] == TagsOf(userID)[tags[i].tagID].(tag := TagOrZero(tags[i].tagID))
      ensures forall t :: t in TagsOf(userID) ==> exists i :: 0 <= i < |tags| && tags[i].tagID == t
    {
      var m := TagsOf(userID);
      tags := [];
      var rest := m.Keys;
      while rest != {}
        invariant rest <= m.Keys
        invariant |tags| + |rest| == |m|
        invariant forall i :: 0 <= i < |tags| ==>
          tags[i].tagID in m && tags[i].tagID !in rest && tags[i] == m[tags[i].tagID].(tag := TagOrZero(tags[i].tagID))
        invariant forall t :: t in m && t !in rest ==> exists i :: 0 <= i < |tags| && tags[i].tagID == t
        decreases rest
      {
        var tid :| tid in rest;
        var ut := m[tid].(tag := TagOrZero(tid));
        ghost var prev := tags;
        tags := tags + [ut];
        assert tags[|tags| - 1].tagID == tid;
        forall t | t in m && t !in rest - {tid} ensures exists i :: 0 <= i < |tags| && tags[i].tagID == t {
          if t != tid {
            var i :| 0 <= i < |prev| && prev[i].tagID == t;
            assert tags[i] == prev[i];
          }
        }
        rest := rest - {tid};
      }
    }

    /** The users carrying the tag, each once. */
    method GetUserIDsByTagID(tagID: Uuid) returns (users: seq<Uuid>)
      ensures Distinct(users)
      ensures forall u :: u in users <==> u in UserTags && tagID in UserTags[u]
    {
      users := [];
      var rest := UserTags.Keys;
      while rest != {}
        invariant rest <= UserTags.Keys
        invariant Distinct(users)
        invariant forall u :: u in users <==> u in UserTags && u !in rest && tagID in UserTags[u]
        decreases rest
      {
        var uid :| uid in rest;
        if tagID in UserTags[uid] {
          users := users + [uid];
        }
        rest := rest - {uid};
      }
    }

    // ---------------------------------------------------------------- channel subscriptions

    function SubscriptionsOf(channelID: Uuid): map<Uuid, Level>
      reads this`ChannelSubscribes
    {
      if channelID in ChannelSubscribes then ChannelSubscribes[channelID] else map[]
    }

    /** Each requested user's level follows NextEntry, whatever the order the request
        map yields; `on` lists the users turned to MarkAndNotify; `off` stays empty,
        because the source reads the level after deleting the entry. */
    method ChangeChannelSubscription(channelID: Uuid, subscription: map<Uuid, Level>, keepOffLevel: bool)
      returns (on: seq<Uuid>, off: seq<Uuid>, err: Option<RepoError>)
      modifies this`ChannelSubscribes
      ensures channelID == Nil ==>
        err == Some(ErrNilID) && on == [] && off == [] && ChannelSubscribes == old(ChannelSubscribes)
      ensures channelID != Nil ==>
        && err == None
        && off == []
        && ChannelSubscribes == old(ChannelSubscribes)[channelID := SubscriptionsOf(channelID)]
        && (forall u :: Lookup(SubscriptionsOf(channelID), u) ==
              if u in subscription then NextEntry(Lookup(old(SubscriptionsOf(channelID)), u), subscription[u], keepOffLevel, u in Users)
              else Lookup(old(SubscriptionsOf(channelID)), u))
        && Distinct(on)
        && (forall u :: u in on <==>
              u in subscription && TurnsOn(Lookup(old(SubscriptionsOf(channelID)), u), subscription[u], u in Users))
    {
      if channelID == Nil {
        return [], [], Some(ErrNilID);
      }
      var current := SubscriptionsOf(channelID);
      ghost var before := current;
      on, off, err := [], [], None;
      var rest := subscription.Keys;
      while rest != {}
        invariant rest <= subscription.Keys
        invariant forall u :: Lookup(current, u) ==
                   if u in subscription && u !in rest then NextEntry(Lookup(before, u), subscription[u], keepOffLevel, u in Users)
                   else Lookup(before, u)
        invariant Distinct(on)
        invariant forall u :: u in on <==>
                   u in subscription && u !in rest && TurnsOn(Lookup(before, u), subscription[u], u in Users)
        invariant off == []
        decreases rest
      {
        var uid :| uid in rest;
        var level := subscription[uid];
        rest := rest - {uid};
        if LevelOf(Lookup(current, uid)) == level {
          continue;
        }
        match level {
          case LevelNone =>
            if uid !in current {
              continue;
            }
            if keepOffLevel && current[uid] == LevelMark {
              continue;
            }
            current := current - {uid};
            // the entry is gone, so the level read back is the zero value and `off` is not appended to
            assert LevelOf(Lookup(current, uid)) != LevelMarkAndNotify;
          case LevelMark =>
            if uid !in Users {
              continue;
            }
            current := current[uid := LevelMark];
          case LevelMarkAndNotify =>
            if uid !in Users {
              continue;
            }
            current := current[uid := LevelMarkAndNotify];
            on := on + [uid];
        }
      }
      ChannelSubscribes := ChannelSubscribes[channelID := current];
    }

    // ---------------------------------------------------------------- messages

    /** The ids of the messages the query's channel/user filter selects. */
    ghost function SelectedIds(q: MessagesQuery): set<Uuid>
      reads this`Messages
    {
      set id | id in Messages && SelectedBy(q, Messages[id])
    }

    /** The ids of the selected messages that also lie in the query's time window. */
    ghost function WindowIds(q: MessagesQuery): set<Uuid>
      reads this`Messages
    {
      set id | id in Messages && SelectedBy(q, Messages[id]) && InWindow(Messages[id], q)
    }

    /** `s` holds, once each, exactly the cleared copies of the stored messages with ids in `ids`. */
    ghost predicate ListsExactly(s: seq<Message>, ids: set<Uuid>)
      reads this`Messages
    {
      && ids <= Messages.Keys
      && DistinctIds(s)
      && (forall m :: m in s <==> m.id in ids && m == Cleared(Messages[m.id]))
    }

    lemma ListsExactlyCount(s: seq<Message>, ids: set<Uuid>)
      requires MessagesValid() && ListsExactly(s, ids)
      ensures |s| == |ids|
    {
      forall id | id in ids ensures id in IdSet(s) {
        assert Cleared(Messages[id]) in s;
      }
      assert IdSet(s) == ids;
      IdSetCard(s);
    }

    /** The ids of the selected messages no earlier than Since, when the query has one. */
    ghost function SinceIds(q: MessagesQuery): set<Uuid>
      reads this`Messages
    {
      set id | id in Messages && SelectedBy(q, Messages[id])
                 && (q.since.Some? ==> FromSince(Messages[id], q.since.value, q.inclusive))
    }

    lemma ListingSameIds(s: seq<Message>, ids: set<Uuid>, ids2: set<Uuid>)
      requires ListsExactly(s, ids)
      requires forall id :: id in ids2 <==> id in ids
      ensures ListsExactly(s, ids2)
    {
      assert ids == ids2;
    }

    /** Sorting a listing keeps it a listing of the same ids. */
    lemma SortKeepsListing(s: seq<Message>, r: seq<Message>, ids: set<Uuid>)
      requires ListsExactly(s, ids) && multiset(r) == multiset(s)
      ensures ListsExactly(r, ids)
    {
      PermutationKeepsIds(s, r);
      assert forall m :: m in r <==> m in multiset(r);
      assert forall m :: m in s <==> m in multiset(s);
    }

    /** A window stage that keeps exactly the listed messages meeting `keep` lists the
        ids whose stored messages meet it (the trims read only the creation time, which
        clearing the stamps leaves alone). */
    lemma SinceKeepsListing(s: seq<Message>, r: seq<Message>, ids: set<Uuid>, ids2: set<Uuid>,
                            since: Time, inclusive: bool)
      requires ListsExactly(s, ids) && DistinctIds(r)
      requires forall m :: m in r <==> m in s && FromSince(m, since, inclusive)
      requires forall id :: id in ids2 <==> id in ids && FromSince(Messages[id], since, inclusive)
      ensures ListsExactly(r, ids2)
    {
    }

    lemma UntilKeepsListing(s: seq<Message>, r: seq<Message>, ids: set<Uuid>, ids2: set<Uuid>,
                            until: Time, inclusive: bool)
      requires ListsExactly(s, ids) && DistinctIds(r)
      requires forall m :: m in r <==> m in s && ToUntil(m, until, inclusive)
      requires forall id :: id in ids2 <==> id in ids && ToUntil(Messages[id], until, inclusive)
      ensures ListsExactly(r, ids2)
    {
    }

    /** The first loop of GetMessages: the cleared copies of the selected messages. */
    method CollectSelected(q: MessagesQuery) returns (tmp: seq<Message>)
      requires MessagesValid()
      ensures ListsExactly(tmp, SelectedIds(q))
    {
      tmp := [];
      var rest := Messages.Keys;
      while rest != {}
        invariant rest <= Messages.Keys
        invariant ListsExactly(tmp, set id | id in Messages && id !in rest && SelectedBy(q, Messages[id]))
        decreases rest
      {
        var id :| id in rest;
        if SelectedBy(q, Messages[id]) {
          var m := Cleared(Messages[id]);
          assert m.id == id;
          tmp := tmp + [m];
        }
        rest := rest - {id};
      }
    }

    /** The selection, sort and Since/Until trims of GetMessages: the window's messages,
        newest first, each once. */
    method Window(q: MessagesQuery) returns (w: seq<Message>)
      requires MessagesValid()
      ensures ListsExactly(w, WindowIds(q)) && SortedBy(w, true)
      ensures |w| == |WindowIds(q)|
    {
      var tmp := CollectSelected(q);
      var sorted := SortByCreatedAt(tmp, true);
      SortKeepsListing(tmp, sorted, SelectedIds(q));
      if q.since.Some? {
        var trimmed := TrimSince(sorted, q.since.value, q.inclusive);
        SinceKeepsListing(sorted, trimmed, SelectedIds(q), SinceIds(q), q.since.value, q.inclusive);
        sorted := trimmed;
      } else {
        ListingSameIds(sorted, SelectedIds(q), SinceIds(q));
      }
      if q.until.Some? {
        var trimmed := TrimUntil(sorted, q.until.value, q.inclusive);
        UntilKeepsListing(sorted, trimmed, SinceIds(q), WindowIds(q), q.until.value, q.inclusive);
        sorted := trimmed;
      } else {
        ListingSameIds(sorted, SinceIds(q), WindowIds(q));
      }
      ListsExactlyCount(sorted, WindowIds(q));
      w := sorted;
    }

    /** Filter, newest-first sort, Since/Until window and offset/limit page. The window
        keeps exactly the in-window messages (see TrimSince and TrimUntil). */
    method GetMessages(q: MessagesQuery) returns (messages: seq<Message>, more: bool)
      requires MessagesValid()
      ensures forall m :: m in messages ==> m.id in WindowIds(q) && m == Cleared(Messages[m.id])
      ensures SortedBy(messages, true)
      ensures DistinctIds(messages)
      ensures |messages| == PageSize(|WindowIds(q)|, q.offset, q.limit)
      ensures |messages| <= NormLimit(q.limit)
      ensures more <==> |WindowIds(q)| > NormOffset(q.offset) + NormLimit(q.limit)
      // The page is the window, newest first, from the offset on.
      ensures exists w :: ListsExactly(w, WindowIds(q)) && SortedBy(w, true) && PageAt(messages, w, q.offset)
    {
      var w := Window(q);
      messages, more := Paginate(w, q.offset, q.limit);
      assert PageAt(messages, w, q.offset);
    }

    // ---------------------------------------------------------------- unreads

    function UnreadsOf(userID: Uuid): set<Uuid>
      reads this`MessageUnreads
    {
      SetAt(MessageUnreads, userID)
    }

    method SetMessageUnread(userID: Uuid, messageID: Uuid, noticeable: bool) returns (err: Option<RepoError>)
      modifies this`MessageUnreads
      ensures err == (if userID == Nil || messageID == Nil then Some(ErrNilID) else None)
      ensures MessageUnreads == if err.Some? then old(MessageUnreads)
                                else old(MessageUnreads)[userID := old(UnreadsOf(userID)) + {messageID}]
    {
      if userID == Nil || messageID == Nil {
        return Some(ErrNilID);
      }
      MessageUnreads := MessageUnreads[userID := UnreadsOf(userID) + {messageID}];
      err := None;
    }

    /** The user's unread messages that still exist, each once, oldest first. */
    method GetUnreadMessagesByUserID(userID: Uuid) returns (result: seq<Message>)
      requires MessagesValid()
      ensures SortedBy(result, false)
      ensures DistinctIds(result)
      ensures forall m :: m in result <==> m.id in UnreadsOf(userID) && m.id in Messages && m == Messages[m.id]
    {
      var unread := UnreadsOf(userID);
      result := [];
      var rest := unread;
      while rest != {}
        invariant rest <= unread
        invariant DistinctIds(result)
        invariant forall m :: m in result <==> m.id in unread && m.id !in rest && m.id in Messages && m == Messages[m.id]
        decreases rest
      {
        var mid :| mid in rest;
        if mid in Messages {
          result := result + [Messages[mid]];
        }
        rest := rest - {mid};
      }
      var sorted := SortByCreatedAt(result, false);
      PermutationKeepsIds(result, sorted);
      assert forall m :: m in sorted <==> m in result by {
        assert forall m :: m in sorted <==> m in multiset(sorted);
        assert forall m :: m in result <==> m in multiset(result);
      }
      result := sorted;
    }

    /** Drops the user's unread marks on existing messages of the channel: a collecting
        loop, then a deleting loop. */
    method DeleteUnreadsByChannelID(channelID: Uuid, userID: Uuid) returns (err: Option<RepoError>)
      modifies this`MessageUnreads
      ensures err == (if channelID == Nil || userID == Nil then Some(ErrNilID) else None)
      ensures MessageUnreads ==
        if err.None? && userID in old(MessageUnreads) then
          old(MessageUnreads)[userID := old(MessageUnreads)[userID]
            - (set mid | mid in old(MessageUnreads)[userID] && mid in Messages && Messages[mid].channelID == channelID)]
        else old(MessageUnreads)
    {
      if channelID == Nil || userID == Nil {
        return Some(ErrNilID);
      }
      err := None;
      if userID !in MessageUnreads {
        return;
      }
      var mMap := MessageUnreads[userID];
      ghost var doomed := set mid | mid in mMap && mid in Messages && Messages[mid].channelID == channelID;
      var deleted: seq<Uuid> := [];
      var rest := mMap;
      while rest != {}
        invariant rest <= mMap
        invariant forall mid :: mid in deleted <==> mid in doomed && mid !in rest
        decreases rest
      {
        var mid :| mid in rest;
        if mid in Messages && Messages[mid].channelID == channelID {
          deleted := deleted + [mid];
        }
        rest := rest - {mid};
      }
      ghost var all := mMap;
      for i := 0 to |deleted|
        invariant mMap == all - Elements(deleted[..i])
      {
        assert Elements(deleted[..i + 1]) == Elements(deleted[..i]) + {deleted[i]};
        mMap := mMap - {deleted[i]};
      }
      assert deleted[..|deleted|] == deleted;
      assert Elements(deleted) == doomed;
      assert mMap == old(MessageUnreads)[userID]
        - (set mid | mid in old(MessageUnreads)[userID] && mid in Messages && Messages[mid].channelID == channelID);
      MessageUnreads := MessageUnreads[userID := mMap];
    }

    // ---------------------------------------------------------------- stars

    function StarsOf(userID: Uuid): set<Uuid>
      reads this`Stars
    {
      SetAt(Stars, userID)
    }

    method AddStar(userID: Uuid, channelID: Uuid) returns (err: Option<RepoError>)
      modifies this`Stars
      ensures err == (if userID == Nil || channelID == Nil then Some(ErrNilID) else None)
      ensures Stars == if err.Some? then old(Stars) else old(Stars)[userID := old(StarsOf(userID)) + {channelID}]
    {
      if userID == Nil || channelID == Nil {
        return Some(ErrNilID);
      }
      Stars := Stars[userID := StarsOf(userID) + {channelID}];
      err := None;
    }

    method RemoveStar(userID: Uuid, channelID: Uuid) returns (err: Option<RepoError>)
      modifies this`Stars
      ensures err == (if userID == Nil || channelID == Nil then Some(ErrNilID) else None)
      ensures Stars == if err.None? && userID in old(Stars) then old(Stars)[userID := old(Stars)[userID] - {channelID}]
                       else old(Stars)
    {
      if userID == Nil || channelID == Nil {
        return Some(ErrNilID);
      }
      if userID in Stars {
        Stars := Stars[userID := Stars[userID] - {channelID}];
      }
      err := None;
    }

    /** The user's starred channels, each once, in map order. */
    method GetStaredChannels(userID: Uuid) returns (result: seq<Uuid>)
      ensures Distinct(result)
      ensures forall c :: c in result <==> c in StarsOf(userID)
      ensures |result| == |StarsOf(userID)|
    {
      result := SetToSeq(StarsOf(userID));
    }

    // ---------------------------------------------------------------- webhooks

    /** `repo.Users[id]`: the user, or the zero user. */
    function UserOrZero(id: Uuid): User
      reads this`Users
    {
      UserAt(Users, id)
    }

    /** `icon` is the outcome of generating the bot's icon file, which happens before
        the channel is checked. */
    method CreateWebhook(name: string, description: string, channelID: Uuid, creatorID: Uuid, secret: string,
                         uid: Uuid, bid: Uuid, icon: Result<Uuid, RepoError>, now: Time)
      returns (r: Result<WebhookBot, RepoError>)
      requires UsersValid()
      requires uid != Nil && uid !in Users && bid != Nil && bid !in Webhooks
      modifies this`Users, this`Webhooks
      ensures UsersValid()
      ensures CheckWebhookName(name, "name").Some? ==> r == Failure(CheckWebhookName(name, "name").value)
      ensures CheckWebhookName(name, "name").None? && icon.Failure? ==> r == Failure(icon.error)
      ensures CheckWebhookName(name, "name").None? && icon.Success? && channelID !in Channels ==>
        r == Failure(ArgError("channelID", "the Channel is not found"))
      ensures CheckWebhookName(name, "name").None? && icon.Success? && channelID in Channels && !Channels[channelID].isPublic ==>
        r == Failure(ArgError("channelID", "private channels are not allowed"))
      ensures r.Failure? ==> Users == old(Users) && Webhooks == old(Webhooks)
      ensures r.Success? <==>
        0 < |name| <= 32 && icon.Success? && channelID in Channels && Channels[channelID].isPublic
      ensures r.Success? ==>
        var u := WebhookUser(uid, name, icon.value, now);
        var wb := WebhookBot(bid, uid, description, secret, channelID, creatorID, now, now, ZeroUser);
        && Users == old(Users)[uid := u]
        && Webhooks == old(Webhooks)[bid := wb]
        && r.value == wb.(botUser := u)
    {
      if |name| == 0 || |name| > 32 {
        return Failure(ArgError("name", "Name must be non-empty and shorter than 33 characters"));
      }
      if icon.Failure? {
        return Failure(icon.error);
      }
      var u := WebhookUser(uid, name, icon.value, now);
      var wb := WebhookBot(bid, uid, description, secret, channelID, creatorID, now, now, ZeroUser);
      if channelID !in Channels {
        return Failure(ArgError("channelID", "the Channel is not found"));
      }
      if !Channels[channelID].isPublic {
        return Failure(ArgError("channelID", "private channels are not allowed"));
      }
      Users := Users[uid := u];
      Webhooks := Webhooks[bid := wb];
      r := Success(wb.(botUser := u));
    }

    /** The body of UpdateWebhook's critical section on working copies of the webhook
        and its bot user: the fields in the order description, channel, secret, name,
        each check returning at the first failure. */
    method ApplyWebhookArgs(w: WebhookBot, u: User, args: UpdateWebhookArgs, now: Time)
      returns (w2: WebhookBot, u2: User, err: Option<RepoError>)
      ensures err == UpdateWebhookError(Channels, args)
      ensures err.None? ==> w2 == UpdatedWebhook(w, args, now) && u2 == UpdatedBotUser(u, args, now)
    {
      w2, u2, err := w, u, None;
      if args.description.Some? {
        w2 := w2.(description := args.description.value, updatedAt := now);
      }
      if args.channelID.Some? {
        if args.channelID.value !in Channels {
          return w2, u2, Some(ArgError("args.ChannelID", "the Channel is not found"));
        }
        if !Channels[args.channelID.value].isPublic {
          return w2, u2, Some(ArgError("args.ChannelID", "private channels are not allowed"));
        }
        w2 := w2.(channelID := args.channelID.value, updatedAt := now);
      }
      if args.secret.Some? {
        w2 := w2.(secret := args.secret.value, updatedAt := now);
      }
      if args.name.Some? {
        if |args.name.value| == 0 || |args.name.value| > 32 {
          return w2, u2, Some(ArgError("args.Name", "Name must be non-empty and shorter than 33 characters"));
        }
        u2 := u2.(displayName := args.name.value, updatedAt := now);
      }
    }

    /** Any failing check leaves both maps as they were; otherwise the working copies
        of the webhook and its bot user are both stored. */
    method UpdateWebhook(id: Uuid, args: UpdateWebhookArgs, now: Time) returns (err: Option<RepoError>)
      requires UsersValid()
      modifies this`Users, this`Webhooks
      ensures UsersValid()
      ensures id == Nil ==> err == Some(ErrNilID)
      ensures id != Nil && id !in old(Webhooks) ==> err == Some(ErrNotFound)
      ensures id != Nil && id in old(Webhooks) ==> err == UpdateWebhookError(Channels, args)
      ensures err.Some? ==> Users == old(Users) && Webhooks == old(Webhooks)
      ensures err.None? ==>
        var w := old(Webhooks)[id];
        && Webhooks == old(Webhooks)[id := UpdatedWebhook(w, args, now)]
        && Users == old(Users)[w.botUserID := UpdatedBotUser(old(Users)[w.botUserID], args, now)]
    {
      if id == Nil {
        return Some(ErrNilID);
      }
      if id !in Webhooks {
        return Some(ErrNotFound);
      }
      var wb := Webhooks[id];
      var u := Users[wb.botUserID];
      wb, u, err := ApplyWebhookArgs(wb, u, args, now);
      if err.Some? {
        return;
      }
      Webhooks := Webhooks[id := wb];
      Users := Users[u.id := u];
    }

    /** Removes the webhook and deactivates its bot user, which stays registered. */
    method DeleteWebhook(id: Uuid, now: Time) returns (err: Option<RepoError>)
      requires UsersValid()
      modifies this`Users, this`Webhooks
      ensures UsersValid()
      ensures err == (if id == Nil then Some(ErrNilID) else if id !in old(Webhooks) then Some(ErrNotFound) else None)
      ensures err.Some? ==> Users == old(Users) && Webhooks == old(Webhooks)
      ensures err.None? ==>
        var b := old(Webhooks)[id].botUserID;
        && Webhooks == old(Webhooks) - {id}
        && Users == old(Users)[b := old(Users)[b].(status := StatusDeactivated, updatedAt := now)]
    {
      if id == Nil {
        return Some(ErrNilID);
      }
      if id !in Webhooks {
        return Some(ErrNotFound);
      }
      var wb := Webhooks[id];
      Webhooks := Webhooks - {id};
      var u := Users[wb.botUserID];
      u := u.(status := StatusDeactivated, updatedAt := now);
      Users := Users[wb.botUserID := u];
      err := None;
    }

    method GetWebhook(id: Uuid) returns (r: Result<WebhookBot, RepoError>)
      ensures r.Success? <==> id != Nil && id in Webhooks
      ensures r.Failure? ==> r.error == ErrNotFound
      ensures r.Success? ==> r.value == WithBotUser(Users, Webhooks[id])
    {
      if id == Nil {
        return Failure(ErrNotFound);
      }
      if id !in Webhooks {
        return Failure(ErrNotFound);
      }
      var w := Webhooks[id];
      r := Success(WithBotUser(Users, w));
    }

    method GetWebhookByBotUserID(id: Uuid) returns (r: Result<WebhookBot, RepoError>)
      ensures r.Success? <==> id != Nil && exists k :: k in Webhooks && Webhooks[k].botUserID == id
      ensures r.Failure? ==> r.error == ErrNotFound
      ensures r.Success? ==>
        && r.value.botUserID == id
        && exists k :: k in Webhooks && r.value == Webhooks[k].(botUser := UserOrZero(id))
    {
      if id == Nil {
        return Failure(ErrNotFound);
      }
      var rest := Webhooks.Keys;
      while rest != {}
        invariant rest <= Webhooks.Keys
        invariant forall k :: k in Webhooks && k !in rest ==> Webhooks[k].botUserID != id
        decreases rest
      {
        var k :| k in rest;
        if Webhooks[k].botUserID == id {
          var w := Webhooks[k];
          return Success(WithBotUser(Users, w));
        }
        rest := rest - {k};
      }
      return Failure(ErrNotFound);
    }

    /** `ws` lists, once each, the webhooks with ids in `keys`, with the bot user filled in. */
    ghost predicate ListsWebhooks(ws: seq<WebhookBot>, keys: set<Uuid>)
      reads this`Webhooks, this`Users
    {
      && (forall i :: 0 <= i < |ws| ==>
            ws[i].id in Webhooks && ws[i] == WithBotUser(Users, Webhooks[ws[i].id]))
      && Distinct(Ids(ws, WebhookKey))
      && (forall id :: id in Ids(ws, WebhookKey) <==> id in keys)
    }

    /** A listing holds one webhook per key. */
    lemma ListsWebhooksCount(ws: seq<WebhookBot>, keys: set<Uuid>)
      requires ListsWebhooks(ws, keys)
      ensures |ws| == |keys|
    {
      DistinctCard(Ids(ws, WebhookKey));
      assert Elements(Ids(ws, WebhookKey)) == keys;
    }

    /** The range over repo.Webhooks, in whatever order the map yields its keys. */
    method CollectWebhooks(creator: Option<Uuid>) returns (arr: seq<WebhookBot>, ghost keys: seq<Uuid>)
      ensures Distinct(keys) && (forall k :: k in keys <==> k in Webhooks)
      ensures arr == WebhooksAt(Webhooks, Users, keys, creator)
    {
      var ks := SetToSeq(Webhooks.Keys);
      keys := ks;
      arr := [];
      for i := 0 to |ks|
        invariant arr == WebhooksAt(Webhooks, Users, ks[..i], creator)
      {
        var v := Webhooks[ks[i]];
        assert ks[..i + 1][..i] == ks[..i];
        if creator.None? || v.creatorID == creator.value {
          arr := arr + [WithBotUser(Users, v)];
        }
      }
      assert ks[..|ks|] == ks;
    }

    method GetAllWebhooks() returns (arr: seq<WebhookBot>)
      requires UsersValid()
      ensures ListsWebhooks(arr, Webhooks.Keys)
      ensures |arr| == |Webhooks|
    {
      ghost var keys;
      arr, keys := CollectWebhooks(None);
      WebhooksAtLists(Webhooks, Users, keys, None);
      ListsWebhooksCount(arr, Webhooks.Keys);
    }

    method GetWebhooksByCreator(creatorID: Uuid) returns (arr: seq<WebhookBot>)
      requires UsersValid()
      ensures ListsWebhooks(arr, if creatorID == Nil then {} else set k | k in Webhooks && Webhooks[k].creatorID == creatorID)
      ensures forall i :: 0 <= i < |arr| ==> arr[i].creatorID == creatorID
    {
      if creatorID == Nil {
        return [];
      }
      ghost var keys;
      arr, keys := CollectWebhooks(Some(creatorID));
      WebhooksAtLists(Webhooks, Users, keys, Some(creatorID));
    }
  }
}
