# traQ in-memory repository and v3 response formatters, in Dafny

This project models two parts of the traQ chat server.

The first is `TestRepository`, the in-memory implementation of the repository interface that traQ's router tests run against. It is a class whose map fields are the stores:
- users, user groups with their members and admins;
- tags and user tags;
- channels and channel subscriptions;
- messages, unread marks and stars;
- files, file ACLs and the blob store;
- webhooks.

Each repository method is a Dafny method. Its `modifies` clause names the fields it changes, and its `ensures` clauses state:
- the error it returns for each precondition the Go code checks (a Nil id, a missing record, a too-long name, a private channel);
- the whole new state of the maps it changes;
- the invariant of those maps it preserves (ids stored under their own keys, unique group and tag names, one bot user per webhook, a consistent set of thumbnail fields).

A Go `range` over a map visits keys in an unspecified order. The model picks keys by `:|` or through a sequence of the keys in an arbitrary order, so every listing and every map-walking update is proved for every visiting order.

The second part is the v3 API's response formatters. The single-record formatters are functions. Their contracts state the derived fields:
- `Secure` iff the secret is non-empty;
- `Pinned` iff the message carries a pin;
- `ParentID.Valid` iff the parent is not Nil.

The list formatters fill an array by index in a loop, as the Go code does. They are proved to keep length and order.

Modules:
- `Uuids`: octets, UUIDs and the text encodings applied to them. These are `uuid.UUID.String`, `hex.EncodeToString` and `base64.RawStdEncoding`, each with its injectivity lemma.
- `Seqs`: distinct sequences and an arbitrary-order listing of a set.
- `Model`: the stored records, `Option`/`Result` and the repository's error values.
- `Files`: the ACL rule, the thumbnail rectangle, blob keys and the `Open`/`OpenThumbnail` readers of a file record.
- `Messages`: the pure stages of `GetMessages`. These are selection, newest-first sorting, the Since/Until window and offset/limit paging.
- `Subscriptions`: the per-user rule of `ChangeChannelSubscription`.
- `Repository`: the `TestRepository` class and the map-level predicates and lemmas its methods share.
- `Responses`: the v3 formatters.

Collaborators whose code is not part of this model become parameters:
- the result of `args.Validate()`;
- the outcome of the blob store write and of the thumbnail producer;
- the MD5 digest function;
- the outcome of icon generation;
- fresh UUIDs and the current time.

## Model

| member | source | states |
|---|---|---|
| Repository.TestRepository.constructor | testutils/test_repository.go:150-171 | Every store starts empty except Users. Users holds only the active, non-bot administrator "traq" when its icon could be generated, and is empty otherwise, since CreateUser's error is discarded. The repository invariant holds. |
| Repository.TestRepository.GetFileMeta | testutils/test_repository.go:1352-1363 | Succeeds iff the id is not Nil and the file is stored, and then returns the stored record; otherwise ErrNotFound. |
| Repository.TestRepository.DeleteFile | testutils/test_repository.go:1365-1377 | Nil is ErrNilID and an unknown file ErrNotFound, with nothing changed. Otherwise only the record and the primary blob are removed. The call fails with ErrFileNotFound when the blob was missing, and the file invariant is kept. |
| Repository.TestRepository.SaveFile | testutils/test_repository.go:1379-1443 | A validation error or a primary store error adds nothing to Files or FilesACL. On success the same fresh id gets the record and `args.ACL`, and the hash is the hex of the MD5 digest. The thumbnail fields come from the producer's rectangle. `Open` returns the uploaded bytes, and `OpenThumbnail` returns the PNG whenever the record claims a thumbnail. |
| Repository.TestRepository.IsFileAccessible | testutils/test_repository.go:1445-1469 | Nil is ErrNilID and an unknown file ErrNotFound. Otherwise the result is the deny-overrides-allow rule over the wildcard and requester entries, for every iteration order of the ACL map. |
| Files.AccessibleFromTwoEntries | testutils/test_repository.go:1456-1468 | The access decision depends only on the entries keyed by Nil and by the requester: false if either denies, else true iff either allows. |
| Files.DenyOverridesAllow | testutils/test_repository.go:1459-1465 | An applicable deny entry makes the file inaccessible whatever else the ACL allows. |
| Files.EmptyAclDenies | testutils/test_repository.go:1456-1468 | An empty ACL grants nobody access. |
| Files.ThumbnailBounds | testutils/test_repository.go:1471-1490 | The rectangle is empty whenever the image could not be decoded or its PNG could not be stored. |
| Files.WithThumbnail | testutils/test_repository.go:1421-1428 | The thumbnail fields are set as a unit: HasThumbnail iff the rectangle is non-empty, and then the width and height are the rectangle's. No other field changes. |
| Files.ThumbnailKey | testutils/test_repository.go:1485 | The thumbnail key is the 36-character id string followed by "-thumb", under the thumbnail file type. |
| Files.PrimaryAndThumbnailKeysDiffer | testutils/test_repository.go:1485-1486 | No file's primary key collides with any file's thumbnail key. |
| Files.ThumbnailKeyInjective | testutils/test_repository.go:1485 | Distinct files have distinct thumbnail keys. |
| Files.StoreThumbnail | testutils/test_repository.go:1485-1488 | A saved PNG is stored under the thumbnail key, and no other key changes. |
| Files.StorePrimary | testutils/test_repository.go:1408-1414 | The uploaded bytes are stored under the primary key, and no other key changes. |
| Files.OpenFileByKey | testutils/test_repository.go:1897-1906 | Succeeds iff the key is stored, returning its bytes; otherwise ErrFileNotFound. |
| Files.OpenThumbnail | testutils/test_repository.go:1901-1906 | ErrNotFound without a thumbnail; otherwise it opens the id's "-thumb" key under the thumbnail type. |
| Files.ThumbnailReadsBack | testutils/test_repository.go:1485-1486 | OpenThumbnail reads back exactly the PNG the thumbnail producer wrote. That write leaves every file's primary content as it was. |
| Files.SkippedThumbnailNotFound | testutils/test_repository.go:1421-1428 | A file whose thumbnail was not produced reports NotFound for its thumbnail whatever the store holds. |
| Uuids.HexEncode | testutils/test_repository.go:1435 | The digest's hex form has two lower-case hex digits per octet. |
| Uuids.HexEncodeInjective | testutils/test_repository.go:1435 | Distinct digests have distinct hex strings. |
| Uuids.UuidString | testutils/test_repository.go:1485 | The string form of a UUID is 36 characters with dashes at positions 8, 13, 18 and 23. |
| Uuids.UuidStringInjective | testutils/test_repository.go:1485 | Distinct UUIDs have distinct string forms. |
| Uuids.DashInjective | testutils/test_repository.go:1485 | A dash join with a known left length splits back into its parts. |
| Uuids.Base64Raw | testutils/test_repository.go:1505 | The unpadded base64 text of n octets has (4n+2)/3 characters. |
| Uuids.Base64RawInjective | testutils/test_repository.go:1505 | Distinct octet strings have distinct unpadded base64 texts. |
| Repository.WebhookUserNameInjective | testutils/test_repository.go:1503-1506 | Two webhook bot users with the same "Webhook#" name have the same id. |
| Repository.CheckGroupName | testutils/test_repository.go:411-413 | The name is accepted iff it has 1 to 30 runes. |
| Repository.CheckGroupType | testutils/test_repository.go:415-417 | The type is accepted iff it has at most 30 runes. |
| Repository.CheckWebhookName | testutils/test_repository.go:1493-1495 | The name is accepted iff it has 1 to 32 runes. |
| Repository.TestRepository.FindGroupByName | testutils/test_repository.go:419-423 | Finds a group with that name iff one exists, for every iteration order. |
| Repository.TestRepository.CreateUserGroup | testutils/test_repository.go:395-430 | Checks name, type and name uniqueness in that order, returning the first error and changing nothing. On success it stores the group under the fresh id with the creator as its only admin and no members. Group names stay unique. |
| Repository.TestRepository.ApplyGroupArgs | testutils/test_repository.go:441-469 | The checks on a stored group give its error. The group is marked changed iff the checks pass and a description or type is given, and it then carries the update. |
| Repository.TestRepository.UpdateUserGroup | testutils/test_repository.go:432-475 | Nil is ErrNilID, an unknown group ErrNotFound, a bad name or type an argument error, and a name already taken by any group, itself included, ErrAlreadyExists. Any error changes nothing. The group is rewritten only when a description or type is given, so a name-only update is not stored. The group invariant is kept. |
| Repository.UpdateKeepsGroupMaps | testutils/test_repository.go:446-473 | Storing an update that passed its checks keeps group names unique and ids under their own keys. |
| Repository.TouchKeepsGroupMaps | testutils/test_repository.go:600-609 | Bumping a group's UpdatedAt while changing its member or admin set keeps the group invariant. |
| Repository.TestRepository.DeleteUserGroup | testutils/test_repository.go:477-494 | Nil is ErrNilID and an unknown group ErrNotFound, with nothing changed. Otherwise the group, its members and its admins are removed and nothing else changes. |
| Repository.TestRepository.Assemble | testutils/test_repository.go:506-517 | The result is the stored group with its member and admin sets listed once each. |
| Repository.TestRepository.GetUserGroup | testutils/test_repository.go:496-519 | Succeeds iff the id names a stored group, returning it with its members and admins; otherwise ErrNotFound. |
| Repository.TestRepository.GetUserGroupByName | testutils/test_repository.go:521-545 | Succeeds iff the name is non-empty and some group has it, returning that group assembled; otherwise ErrNotFound. |
| Repository.TestRepository.GetUserBelongingGroupIDs | testutils/test_repository.go:547-563 | Lists, once each, exactly the groups the user is a member of. |
| Repository.TestRepository.GetAllUserGroups | testutils/test_repository.go:565-586 | Lists every stored group once, assembled, and no other. |
| Repository.TestRepository.AddUserToGroup | testutils/test_repository.go:588-611 | Nil ids are ErrNilID, and a missing group is a successful no-op. Otherwise the user joins the member set, and UpdatedAt is bumped only when the user was not yet a member. |
| Repository.TestRepository.RemoveUserFromGroup | testutils/test_repository.go:613-633 | Nil ids are ErrNilID. A missing group or non-member is a no-op. Otherwise the user leaves the member set and UpdatedAt is bumped. |
| Repository.TestRepository.AddUserToGroupAdmin | testutils/test_repository.go:635-654 | Nil ids are ErrNilID. A missing group or an existing admin is a no-op. Otherwise the user joins the admin set and UpdatedAt is bumped. |
| Repository.TestRepository.RemoveUserFromGroupAdmin | testutils/test_repository.go:656-676 | Nil ids are ErrNilID. A missing group or non-admin is a no-op. Otherwise the user leaves the admin set and UpdatedAt is bumped. |
| Repository.TestRepository.GetTagByID | testutils/test_repository.go:678-686 | Succeeds iff the tag is stored, returning it; otherwise ErrNotFound. |
| Repository.TestRepository.FindTagByName | testutils/test_repository.go:697-701 | Finds a tag with that name iff one exists, for every iteration order. |
| Repository.TestRepository.GetOrCreateTag | testutils/test_repository.go:688-710 | An empty name is ErrNotFound and a name over 30 runes an argument error. An existing tag of that name is returned unchanged; otherwise a fresh tag is stored. Tag names stay unique. |
| Repository.TestRepository.AddUserTag | testutils/test_repository.go:712-734 | Nil ids are ErrNilID and a tag the user already has ErrAlreadyExists, with nothing changed. Otherwise the entry is added unlocked, stamped now. |
| Repository.TestRepository.ChangeUserTagLock | testutils/test_repository.go:736-751 | Nil ids are ErrNilID and a missing user or tag entry ErrNotFound. Otherwise only that entry's lock and UpdatedAt change. |
| Repository.TestRepository.DeleteUserTag | testutils/test_repository.go:753-764 | Nil ids are ErrNilID. Otherwise the user's entry for the tag is removed if present, and nothing else changes. |
| Repository.TestRepository.GetUserTag | testutils/test_repository.go:766-781 | Succeeds iff the user has the tag, returning the entry with the tag record filled in; otherwise ErrNotFound. |
| Repository.TestRepository.GetUserTagsByUserID | testutils/test_repository.go:783-795 | Lists each of the user's tag entries once, with the tag record filled in. |
| Repository.TestRepository.GetUserIDsByTagID | testutils/test_repository.go:797-807 | Lists, once each, exactly the users carrying the tag. |
| Subscriptions.NextEntry | testutils/test_repository.go:897-937 | A request never stores LevelNone. Off removes a stored level unless KeepOffLevel protects Mark. Mark or MarkAndNotify is stored only for existing users. |
| Subscriptions.NextEntryIdempotent | testutils/test_repository.go:897-937 | Repeating a request changes nothing further and reports nobody as turned on again. |
| Repository.TestRepository.ChangeChannelSubscription | testutils/test_repository.go:883-944 | Nil is ErrNilID with nothing changed. Otherwise each requested user's level follows NextEntry and other users keep theirs. `on` lists once each the existing users turned to MarkAndNotify, and `off` is always empty. All of this holds for every iteration order. |
| Messages.SelectedBy | testutils/test_repository.go:1054-1086 | A message is selected iff it matches the channel and the user, where a Nil channel or user matches any. |
| Messages.SortByCreatedAt | testutils/test_repository.go:1089-1091 | The result is a permutation of the input ordered by creation time, newest first or oldest first. |
| Messages.InsertKeepsSorted | testutils/test_repository.go:1089-1091 | Inserting a message before the first one it may precede keeps a list sorted. |
| Messages.SinceStartAsWritten | testutils/test_repository.go:1096-1106 | The as-written scan stops at the first message that passes the Since test: every message before it fails, and the one at the index passes unless the scan ran off the end. |
| Messages.SinceAsWrittenAllOrNothing | testutils/test_repository.go:1093-1113 | On a newest-first list, the as-written Since trim returns the whole list when some message passes the Since test, and nothing otherwise. |
| Messages.UntilEndAsWritten | testutils/test_repository.go:1117-1127 | The as-written backward scan stops at the last message that passes the Until test: every message after it fails, and the one at the index passes unless the scan ran off the front. |
| Messages.UntilAsWrittenAllOrNothing | testutils/test_repository.go:1114-1134 | On a newest-first list, the as-written Until trim returns the whole list when some message passes the Until test, and nothing otherwise. |
| Messages.SinceAsWrittenKeepsOlderMessage | testutils/test_repository.go:1093-1113 | On a newest-first list, the as-written Since trim keeps a message older than Since. |
| Messages.UntilAsWrittenKeepsNewerMessage | testutils/test_repository.go:1114-1134 | On a newest-first list, the as-written Until trim keeps a message newer than Until. |
| Messages.TrimSince | testutils/test_repository.go:1093-1113 | On a newest-first list, the result is the prefix of exactly the messages no earlier than Since. It keeps distinct ids and order. |
| Messages.TrimUntil | testutils/test_repository.go:1114-1134 | On a newest-first list, the result is the suffix of exactly the messages no later than Until. It keeps distinct ids and order. |
| Messages.NormOffset | testutils/test_repository.go:1136-1138 | A non-negative offset is kept, and a negative one counts as 0. |
| Messages.NormLimit | testutils/test_repository.go:1140-1141 | A positive limit is kept, and a non-positive one becomes MaxInt32. |
| Messages.PageSize | testutils/test_repository.go:1136-1148 | A page holds at most the limit, and lies within the list after the offset. |
| Messages.Paginate | testutils/test_repository.go:1136-1148 | The page is the elements from the offset on, up to the limit, in order. `more` holds iff the list is longer than offset plus limit. |
| Messages.IdSetCard | testutils/test_repository.go:1054-1148 | A list has at most as many ids as messages, and exactly as many iff no id repeats. |
| Messages.PermutationKeepsIds | testutils/test_repository.go:1089-1091 | Sorting keeps the ids, their number and their distinctness. |
| Repository.TestRepository.CollectSelected | testutils/test_repository.go:1054-1086 | Returns once each the stamp-cleared copies of exactly the selected messages. |
| Repository.TestRepository.ListsExactlyCount | testutils/test_repository.go:1054-1086 | A listing of a set of ids has one message per id. |
| Repository.TestRepository.SortKeepsListing | testutils/test_repository.go:1089-1091 | Any permutation of a listing lists the same ids. |
| Repository.TestRepository.SinceKeepsListing | testutils/test_repository.go:1093-1113 | Keeping exactly the listed messages no earlier than Since lists those messages' ids. |
| Repository.TestRepository.UntilKeepsListing | testutils/test_repository.go:1114-1134 | Keeping exactly the listed messages no later than Until lists those messages' ids. |
| Repository.TestRepository.Window | testutils/test_repository.go:1050-1134 | Uses the corrected Since/Until trims. The result lists the stamp-cleared copies of exactly the selected messages in the time window, each once, newest first, and its length is the window's size. |
| Repository.TestRepository.GetMessages | testutils/test_repository.go:1050-1150 | Uses the corrected Since/Until trims of the Findings section, not the as-written ones. It returns stamp-cleared copies of the selected messages in the time window, newest first, each once. The count is the page size of the window, at most the limit, and `more` holds iff the window exceeds offset plus limit. The i-th result is the window's element at offset plus i, in newest-first order. |
| Repository.TestRepository.SetMessageUnread | testutils/test_repository.go:1156-1169 | Nil ids are ErrNilID with nothing changed. Otherwise the message is added to the user's unread set and nothing else changes. |
| Repository.TestRepository.GetUnreadMessagesByUserID | testutils/test_repository.go:1171-1192 | Lists oldest first, once each, exactly the stored messages in the user's unread set. |
| Repository.TestRepository.DeleteUnreadsByChannelID | testutils/test_repository.go:1194-1220 | Nil ids are ErrNilID with nothing changed. Otherwise the user's unread marks on stored messages of the channel are removed and no other mark changes. |
| Repository.TestRepository.AddStar | testutils/test_repository.go:1286-1299 | Nil ids are ErrNilID with nothing changed. Otherwise the channel joins the user's stars. |
| Repository.TestRepository.RemoveStar | testutils/test_repository.go:1301-1313 | Nil ids are ErrNilID. Otherwise the channel leaves the user's stars if the user has any, and nothing else changes. |
| Repository.TestRepository.GetStaredChannels | testutils/test_repository.go:1315-1326 | Lists, once each, exactly the user's starred channels. |
| Repository.TestRepository.CreateWebhook | testutils/test_repository.go:1492-1549 | Checks the name, then the icon, then that the channel exists and is public, returning the first error and changing no user or webhook. On success it registers an active bot user named "Webhook#" plus the base64 of its id, and stores the webhook under the fresh id. Each webhook keeps its own bot user. |
| Repository.TestRepository.ApplyWebhookArgs | testutils/test_repository.go:1567-1594 | The field checks give the update's error. When they pass, the webhook and its bot user carry the update. |
| Repository.TestRepository.UpdateWebhook | testutils/test_repository.go:1551-1599 | Nil is ErrNilID, an unknown webhook ErrNotFound, a failed field check its error; any error changes nothing. Otherwise exactly the webhook and its bot user are rewritten. |
| Repository.TestRepository.DeleteWebhook | testutils/test_repository.go:1601-1619 | Nil is ErrNilID and an unknown webhook ErrNotFound, with nothing changed. Otherwise the webhook is removed and its bot user deactivated. |
| Repository.TestRepository.GetWebhook | testutils/test_repository.go:1621-1635 | Succeeds iff the id names a stored webhook, returning it with its bot user filled in; otherwise ErrNotFound. |
| Repository.TestRepository.GetWebhookByBotUserID | testutils/test_repository.go:1637-1661 | Succeeds iff some webhook has that bot user, returning it with the user filled in; otherwise ErrNotFound. |
| Repository.WebhooksAtLists | testutils/test_repository.go:1663-1694 | Ranging over every key, keeping those of the creator, yields each kept webhook once with its bot user filled in, and no other. |
| Repository.TestRepository.CollectWebhooks | testutils/test_repository.go:1667-1671 | The range over the webhooks visits every key once, in some order, and collects the kept ones. |
| Repository.TestRepository.GetAllWebhooks | testutils/test_repository.go:1663-1675 | Lists every webhook once with its bot user, and no other. |
| Repository.TestRepository.GetWebhooksByCreator | testutils/test_repository.go:1677-1694 | A Nil creator gives the empty list. Otherwise it lists once each exactly the creator's webhooks with their bot users. |
| Responses.FormatChannel | router/v3/responses.go:19-29 | ParentID is valid iff the channel's parent is not Nil, and the other fields are copied. |
| Responses.FormatChannelParentRoundTrip | router/v3/responses.go:23 | A client reading the nullable parent recovers the stored parent id, root channels included. |
| Responses.FormatUserTags | router/v3/responses.go:39-51 | Same length as the input, and element i is the formatted i-th user tag. |
| Responses.ResponseDisplayName | router/v3/responses.go:74 | The display name, or the name when the display name is empty. |
| Responses.FormatUserDetail | router/v3/responses.go:68-83 | The display name is the user's response display name, so it is non-empty iff the user has a display name or a name. The tags are formatted in order, the groups are passed through and the bio is empty. |
| Responses.FormatWebhook | router/v3/responses.go:97-109 | Secure iff the secret is non-empty. The ids are rendered as UUID strings, and the display name is the bot user's. |
| Responses.FormatWebhookKeepsIdentity | router/v3/responses.go:99-105 | Equal string ids in two responses mean the same webhook, bot user, channel or owner. |
| Responses.FormatWebhooks | router/v3/responses.go:111-117 | Same length as the input, and element i is the formatted i-th webhook. |
| Responses.FormatBot | router/v3/responses.go:130-141 | The developer is the bot's creator, and the other fields are copied. |
| Responses.FormatBots | router/v3/responses.go:143-149 | Same length as the input, and element i is the formatted i-th bot. |
| Responses.FormatBotDetail | router/v3/responses.go:171-189 | The developer is the creator, and the tokens are the bot's verification token and the given access token. |
| Responses.BotDetailExtendsBot | router/v3/responses.go:130-189 | The detail view agrees with the plain view on every field they share. |
| Responses.FormatMessage | router/v3/responses.go:203-214 | Pinned iff the message carries a pin, the content is its text, and there is no thread id. |
| Responses.FormatMessages | router/v3/responses.go:216-222 | Same length as the input, and element i is the formatted i-th message. |
| Responses.FormatPin | router/v3/responses.go:230-238 | The pinned message is formatted and marked pinned, with the pinner and the pin time carried over. |
| Responses.FormatPinIsPinnedMessage | router/v3/responses.go:230-238 | A pin shows its message exactly as formatMessage shows that message once it carries the pin. |
| Responses.FormatPins | router/v3/responses.go:240-246 | Same length as the input, and element i is the formatted i-th pin. |

## Left out

- Repository.TestRepository.constructor: the icon file that GenerateIconFile stores for "traq" is not added to Files, FilesACL or FS. GenerateIconFile is not part of this model, so only its outcome is a parameter.
- Repository.TestRepository.constructor: the password hash and salt CreateUser computes from "traq" and a random salt are not modelled. The user record has no password fields.
- Repository.TestRepository.Window: it applies the corrected TrimSince/TrimUntil, as the GetMessages line below says.
- Repository.TestRepository.GetMessages: the window stage is the corrected TrimSince/TrimUntil, not the scans at test_repository.go:1093-1134. As written, the window keeps the whole sorted list or nothing (Messages.SinceAsWrittenAllOrNothing, Messages.UntilAsWrittenAllOrNothing).
- Locks and concurrency: every method runs as one atomic step.
- The goroutines and pipes of SaveFile are left out. The model runs the thumbnail producer's write first and then the store writer's, and takes the outcome of each as a parameter.
- The MD5 digest is an uninterpreted function `md5`.
- Image decoding, fitting and PNG encoding in generateThumbnail are left out. The producer's outcome (not decoded, or PNG bytes with their bounds and whether the write succeeded) is a parameter.
- The in-memory blob store's internals are left out. The store is a map from key and file type to bytes, name and MIME type.
- Repository.TestRepository.CreateWebhook: the icon file that GenerateIconFile stores before the channel checks is not added to Files, FilesACL or FS, so a failed call leaving that file behind is not modelled.
- `args.Validate()` of SaveFile and `GenerateIconFile` of CreateWebhook are left out: their outcomes are parameters.
- Methods of TestRepository that only panic are not modelled: they have no behaviour.
- User and channel CRUD, message create/update/delete, pins, clips, stamps, bots, OAuth2 and the other repository areas are not part of this model. The maps they would fill (Users, Channels, Messages) are read as given.
- GetChannelSubscriptions and PrivateChannelMembers are not part of this model.
- The fileMeta getters (GetID, GetFileName …) are left out: they return a record field.
- Go's `int` and `int64` wrap-around is left out. Integers are unbounded, so a huge offset plus limit does not overflow.
- Rune counts (`utf8.RuneCountInString`) are the length of the `seq<char>`: a Dafny char is one Unicode scalar value.
- model/user.go, model/webhook.go and model/channel.go are not part of this model. Their status constants, the thumbnail file type, `GetName` (the bot user's display name), `GetResponseDisplayName` and the role names "admin" and "bot" are written out from how responses.go and test_repository.go use them.
- SortByCreatedAt: `sort.Slice` is not stable. The model proves the result is some sorted permutation and does not fix the order of messages created at the same instant.
- Each method requires and ensures only the part of the repository invariant over the maps it touches (FilesValid, GroupsValid, TagsValid, MessagesValid, UsersValid). `Valid` is their conjunction.
- These behaviours of the code are reproduced as written:
  - a primary store failure in SaveFile leaves any thumbnail blob already saved in the store (test_repository.go:1407-1433);
  - DeleteFile removes the record and the primary blob but keeps the thumbnail blob and the ACL (test_repository.go:1365-1377);
  - IsFileAccessible reports ErrNilID for a Nil file id (test_repository.go:1445-1448);
  - ChangeChannelSubscription never reports a user in `off`, because it reads the level after deleting it (test_repository.go:913-916);
  - UpdateUserGroup stores a name change only when a description or type also changes.

## Findings

| source | as written | input that shows it | evidently intended | confidence | as-written member | corrected member |
|---|---|---|---|---|---|---|
| testutils/test_repository.go:1093-1113 | On the newest-first list, the Since loop scans from the front and keeps everything from the first message no earlier than Since, which is the newest one. | Messages at t=3 and t=1, Since=2, Inclusive: the scan stops at index 0 and the message at t=1 survives. | Keep exactly the messages no earlier than Since, which on a newest-first list is a prefix. | not executed | Messages.SinceAsWrittenKeepsOlderMessage | Messages.TrimSince |
| testutils/test_repository.go:1114-1134 | On the newest-first list, the Until loop scans from the back and keeps everything up to the last message no later than Until, which is the oldest one. | Messages at t=3 and t=1, Until=2, Inclusive: the scan stops at index 1 and the message at t=3 survives. | Keep exactly the messages no later than Until, which on a newest-first list is a suffix. | not executed | Messages.UntilAsWrittenKeepsNewerMessage | Messages.TrimUntil |
