# A verified model of Samba's winbind client, Group Policy and referral code

This project models the parts of Samba that do the most with the least room for error, and
proves what they are for. It is written in Dafny 4.11; `dafny verify dfyconfig.toml` checks
all of it.

| module | models |
|---|---|
| `Sockets`, `Transport` | the synchronous winbind client of `nsswitch/wb_common.c`: one cached socket, reopened on hang-ups and forks, a version handshake that re-enters the client, a privileged pipe, partial reads and writes |
| `Framing` | requests and responses on the wire, `nsswitch/wb_reqtrans.c` |
| `Tokens`, `NssBuffer`, `NssEnum`, `GroupLists` | the name service module of `nsswitch/winbind_nss_linux.c` and `nsswitch/winbind_nss_freebsd.c`: the tokenizer, the allocator over the caller's buffer, the enumeration caches, the group arrays |
| `GpoSec`, `GpoList`, `GpLinkText`, `GpoReg` | Group Policy: security filtering, the walk up the tree, the gPLink text, the state kept in the registry |
| `SamReply` | tokens to and from the NETLOGON validation structures, `auth/auth_sam_reply.c` |
| `DcReferral` | the order of domain controllers in DFS referrals, `dfs_server/dfs_server_ad.c` |
| `PamSids` | the list of SIDs built by `nsswitch/pam_winbind.c` |
| `Subunit` | the accounting of `selftest/subunithelper.py` |
| `Wire`, `Decimal` | 32-bit little-endian fields; `%d` and `atoi` |

## How to read it

Code that updates things in place is modelled by classes, arrays and loops. Each such method
is proved against a specification function or predicate, and the lemmas and further clauses
beside it say what the specification means, in terms of the inputs and without naming it. What
the outside world decides (the kernel, the daemon, the directory, the registry backend, the
random numbers) is a parameter or a nondeterministic choice, so that a result about a method holds
for every behaviour of the world. Where the world can fail it keeps count: `Kernel.faults` of the
failed system calls, `Kernel.waited` of the seconds waited for it, `Registry.faults` and
`Memory.refusals`. So a result that needs a friendly world says so by the counts.

The main results:

- **Whole runs of the client** (`Transport.Run`). Through any sequence of requests, privileged
  or not, with or without extra data, with hang-ups, partial transfers and forks in any places,
  the client owns at most its one cached descriptor, and every other descriptor it opened is
  closed. A privileged call is answered only over a socket in the directory that the daemon named
  when asked for it; answered or not, it writes nothing to a public connection that was there
  before, and only the two handshake requests to one that it opens. Every answered call sent its
  request itself, calls on one connection take different replies in order, and every reply handed
  out answers the very request it is handed out for. And calls are answered: up to the first split
  request, one is not only if winbind is switched off, the request carries the flag of the
  handshake, or during that call a system call failed, half a minute was spent waiting or the
  daemon did not greet as it should; hang-ups while writing are no excuse (`Excused`). So in a run
  without such trouble, with extra data that does not start with a request, every call has its
  answer. A request with extra data is two writes; if the daemon hangs up between them the extra
  data goes to a connection of its own, behind nothing but whole requests. The reply is the request's answer if and only
  if the extra data does not stand alone like that on the connection. A caller can tell
  beforehand: extra data that does not start with a whole request packet draws no reply when it
  stands alone, so that every call of a run with only such extra data is paired
  (`HarmlessPaired`); and extra data that does start with one can draw a wrong reply on any idle
  connection (`Sockets.SplitMisleads`, with an instance in `SplitWitness`). Waiting is bounded:
  31 connects, 61 idle polls.
- **The policy list** (`GpoList.GetGpoList`). Two lists filled from the front while walking
  outwards equal the declarative Local, Site, Domain, OU order with block and enforce rules. By the
  directory alone: link `j` of container `i` has its entry in the list if and only if it is not
  disabled, its object is found, the token may apply it, and it is enforced or no container met
  before bars inheritance. Local is first, ordinary entries come before enforced ones, outer
  containers before inner ones. The call succeeds exactly when every lookup it needs does.
- **Round trips**: messages through the wire format; links through gPLink text, for exactly the
  names that can be expressed and the old values that end where a link ends; policies through
  the registry, where without faults of the backend every user and the machine read what was
  stored for them last (`GpoReg.StoreAllThenRead`), and otherwise exactly when no longer older list is left behind;
  tokens through the validation structures, exactly when the primary group is in the user's
  domain.
- **Enumeration** (`NssEnum.RunPasswd`, `NssEnum.RunGroups`): any run of set, end and get calls
  with a buffer of any size for each call, through lost replies, refusals and new connections.
  After a set, on one connection, the calls are an iterator over the whole database: each lays
  the next entry out in its buffer if it fits there and otherwise leaves it for the next call,
  and the end is reported after the last entry and not before. Laid out means that every string of
  the entry is read, with its terminator, at the place returned for it. The one way to break this is to
  set or end between a TRYAGAIN and its retry: the module is stuck exactly then, and every later
  call reports that there is nothing (`StuckWhenBroken`, `SilentAfter`, `Strands`).
- **Fisher-Yates is a bijection** between draws and orders (`DcReferral.ShuffleIsBijective`),
  and a sysvol referral lists each controller once, those of the client's site first, in the
  orders that the random numbers determine.
- **Exact buffer results**: `fill_grent` succeeds exactly when everything fits; the SID list has
  its result and text for every buffer size, and is complete exactly when it fits with the comma
  written ahead; `gr_addgid` counts right exactly when the groups fit.

Where the code differs from its own documentation the model follows the code. The comment above
`safe_append_string` says that nothing is copied when the text does not fit, but `strlcat` cuts
it off, so that `NameListToSidList` can succeed with a SID that is cut short
(`CutSidSucceeds`); `Outcome` says what it returns for every size. A test that starts twice is
reported as an error but shows neither in the statistics nor in the exit code
(`RestartIsNotAnError`). A link appended to a value that does not end in a closing bracket is
swallowed by the open piece, and the call reports success (`SwallowedLink`).

Three ends of the referral code are outside what C defines, and are outcomes of their own in
the model. The array of entries has the length of their number in 16 bits, so that all writes
are in bounds if and only if there are fewer than 65536 (`Overrun`). Without any site object the
list of groups is a null pointer that is followed (`NullList`). An empty account name has no
last character to overwrite (`Underrun`).

## What is taken as given

- The 64-bit little-endian layout of the winbind structures: 2128 and 4008 bytes, with the
  fields at the offsets named in `Framing` and `Transport`.
- A process never gets the id of the one that opened its socket; the mutexes give one caller at
  a time; the fork is the only way a socket becomes shared.
- The daemon answers requests of a connection in order and with well-formed lengths. This is a
  hypothesis of the pairing and answering results only (`Kernel.Honest`), not of the safety
  results; answering also takes that it greets a new connection well (`Welcoming`).
- Distinguished names are compared without regard to case in ASCII only.
- Numbers in gPLink values are within the range of `atoi`; list lengths fit an `int`.
- Registry strings come back as they were stored, and a key that was never created is reported
  as missing.
- A member list has at most as many names as the daemon announces.
- The daemon keeps the place of an enumeration with the connection: a set opens one at the
  start, an end and an error drop it, and without one a request is answered with "no more
  entries" (`source3/winbindd/winbindd_setpwent.c:40-47`, `winbindd_endpwent.c:40`,
  `winbindd_getpwent.c:54-57` and `:127-137`, where an empty batch is also ruled out).
  Enumeration is enabled, and the database does not change while it is walked through. Which
  connection a request takes and whether its reply comes back is a parameter of each call
  (`NssEnum.Net`).

## Model

| member | source | states |
|---|---|---|
| `Framing.ReadPacket` | nsswitch/wb_reqtrans.c:70-100 | the incremental reader finds the packet given by the length fields alone, however the bytes are cut into pieces: a request of 2128 bytes and what it announces, a response of at least 4008; malformed exactly for another length, or extra data over a limit that is not zero |
| `Framing.WriteRequest` | nsswitch/wb_reqtrans.c:149-178 | what is written is one whole request frame |
| `Framing.WriteResponse` | nsswitch/wb_reqtrans.c:298-328 | what is written is one whole response frame |
| `Framing.Received` | nsswitch/wb_reqtrans.c:102-127 | the packet is cut at the fixed size; the pointer field holds the receiver's address, or null exactly without extra data, and all else is as it was sent |
| `Framing.PacketsOfConcat` | lib/async_req/async_sock.c:493-556 | packets written back to back are read back one by one, and what follows is read as if it stood alone |
| `Framing.PacketsMonotone` | lib/async_req/async_sock.c:493-556 | bytes that arrive later never change the packets already found |
| `Framing.PartialYieldsNothing` | lib/async_req/async_sock.c:493-556 | a packet that has only partly arrived is not yet found |
| `Framing.FramingRoundTrip` | nsswitch/wb_reqtrans.c:251-276 | any sequence of well-formed messages written back to back is read back as the same sequence, up to the pointer field |
| `Framing.ReadReplySync` | nsswitch/wb_common.c:643-694 | the synchronous reader on a byte stream, with the length check and the narrowing to an int |
| `Framing.ReadersAgree` | nsswitch/wb_common.c:643-694 | the synchronous and asynchronous readers accept the same replies and take the same bytes, if and only if the extra length fits an int; what either finds malformed |
| `Sockets.ReplyIsPaired` | nsswitch/wb_common.c:752-783 | after a whole request on an idle connection the next reply read is its answer, and the connection is idle again |
| `Sockets.NoReplyYet` | nsswitch/wb_common.c:752-783 | while a request is incomplete there is nothing to read |
| `Sockets.NeverMalformed` | nsswitch/wb_common.c:667-682 | well-formed answers are never refused by the length check |
| `Sockets.NeverReceived` | nsswitch/wb_common.c:723-743 | a connection on which the extra data stands alone never receives the request |
| `Sockets.SplitNeverPairs` | nsswitch/wb_common.c:723-743 | extra data alone on a connection never draws the answer to its request |
| `Sockets.TogetherNotAlone` | nsswitch/wb_common.c:723-743 | a request that stands as a whole behind whole requests is never taken for extra data alone |
| `Sockets.AloneDrawsNothing` | nsswitch/wb_common.c:723-783 | extra data that does not start with a whole request packet draws no reply when it stands alone |
| `Sockets.SplitMisleads` | nsswitch/wb_common.c:723-783 | extra data that does start with one can draw a reply that is not the answer, on any idle connection |
| `Sockets.SplitWitness` | nsswitch/wb_common.c:723-783 | an instance: the extra data is itself a request |
| `Transport.InitRequest` | nsswitch/wb_common.c:113-125 | fills in length, command, process id and the client name with its terminator, as much as fits, and changes nothing else |
| `Transport.Context.CloseSock` | nsswitch/wb_common.c:138-148 | afterwards no descriptor is owned |
| `Transport.Context.MakeSafeFd` | nsswitch/wb_common.c:169-255 | the socket ends on exactly one descriptor above the standard ones, or is closed, the latter only after a failed call |
| `Transport.Context.ConnectLoop` | nsswitch/wb_common.c:354-392 | at most 31 connect calls, whatever the daemon does, and success exactly when the last one connected; it gives up only after a failed call or 30 seconds |
| `Transport.Context.NamedPipeSock` | nsswitch/wb_common.c:284-402 | one new descriptor on one new connection to a socket checked to belong to root, or none, and then a call failed or 30 seconds went by |
| `Transport.Context.ReadLoop` | nsswitch/wb_common.c:586-636 | exactly the bytes asked for in any pieces, with at most 61 idle waits of five seconds; failure only after a failed call or all 61 of them |
| `Transport.Context.ReadSock` | nsswitch/wb_common.c:574-639 | reads from the cached connection only, and closes it on failure, which takes a failed call or 305 seconds |
| `Transport.Context.WriteLoop` | nsswitch/wb_common.c:527-567 | a front part of the buffer is appended to the connection, all of it on success; it fails only if a call does |
| `Transport.Context.WriteOnce` | nsswitch/wb_common.c:514-567 | one round: written whole on the cached or on a fresh idle connection, or the connection is closed |
| `Transport.Context.WriteSock` | nsswitch/wb_common.c:508-570 | on success the whole buffer is on one connection, the cached one or a fresh idle one, and privileged bytes only on a privileged one; however often the daemon hangs up, it fails only in trouble or inside the handshake |
| `Transport.Context.ReadReply` | nsswitch/wb_common.c:643-694 | one complete reply in stream order, extra data included; it fails only after a failed call, 305 seconds of silence or a length out of range, and the connection stays open after a failure only if the length was refused or memory ran out |
| `Transport.Context.SendRequest` | nsswitch/wb_common.c:700-746 | header and extra data stand together behind an idle connection, or are split by a hang-up; not sent only in trouble or inside the handshake |
| `Transport.Context.Pairing` | nsswitch/wb_common.c:723-783 | a request was split exactly when its extra data stands alone; unsplit, the reply is its answer and nothing is outstanding; split, it is not, and the extra data starts with a request |
| `Transport.Context.RequestResponse` | nsswitch/wb_common.c:787-837 | status and reply of one call; with nothing outstanding it is answered unless winbind is switched off, there was trouble, or it is part of a handshake without a connection; the reply is the answer if and only if the extra data does not stand alone on the connection, and always if it does not start with a request packet; only a reply to a split request can leave something outstanding; the call sent something on the connection its reply came from, which is privileged if that was asked for; a privileged call, answered or not, writes to public connections nothing but the handshake on new ones |
| `Transport.Context.Open` | nsswitch/wb_common.c:434-449 | a ready descriptor is returned unchanged; a recursive call never opens; the handshake re-enters at most one level deep; any other call opens one unless there was trouble |
| `Transport.Context.OpenFresh` | nsswitch/wb_common.c:451-500 | a new connection is idle and of the checked version, or privileged and reached from one that is |
| `Transport.Context.CheckVersion` | nsswitch/wb_common.c:459-467 | a connection is kept only if the version was the first thing asked and the first reply named the right one; given up only if it did not, or a call failed; the handshake leaves nothing unread |
| `Transport.Context.SwitchToPrivileged` | nsswitch/wb_common.c:473-494 | the privileged connection is reached through the extra data of the good reply to the request for the directory, the second one on a connection of the right version; it is reached unless there was trouble |
| `Transport.Context.Fork` | nsswitch/wb_common.c:434-437 | the child will not use what it shares with its parent |
| `Transport.UntroubledAnswered` | nsswitch/wb_common.c:420-837 | over a run without failed calls, long waits or bad greetings, in which no extra data starts with a request, every call is answered |
| `Transport.Run` | nsswitch/wb_common.c:420-837 | the theorem over all runs: one owned descriptor; answered privileged calls on privileged connections, and at every privileged step no byte on an old public connection and the handshake alone on a new one; of two answered calls on a connection the later one sent later; up to the first split request every call is answered or had trouble of its own, every reply is paired with its request and no two calls share one; in a run without trouble and without extra data that starts with a request every call is answered, and every reply is paired as long as no extra data starts with one |
| `GpoSec.ApplySecurityFiltering` | libgpo/gpo_sec.c:157-196 | applies exactly when some object entry of type 5 for a SID of the token, with the control access bit and the GUID of the right, has no such entry of type 6 before it; the errors for a missing token or descriptor |
| `GpoSec.EntryDecides` | libgpo/gpo_sec.c:29-152 | which entries grant and which deny, by type, mask, trustee and the GUID in the field that the flags name |
| `GpoList.ParentIs` | source3/libads/ldap.c:1340-1357 | the parent is what follows the first comma, and exists exactly when there is one |
| `GpoList.AboveIs` | libgpo/gpo_ldap.c:773-816 | the containers gone through are exactly what follows a comma of the name, up to the parent of the directory's base |
| `GpoList.MetIs` | libgpo/gpo_ldap.c:773-905 | and they are met as organizational units, then domains, each the longest name first, then a machine's site |
| `GpoList.Walk.AddGpLink` | libgpo/gpo_ldap.c:554-638 | pushing a container's links from last to first onto the two lists puts its selected links in front of what is there; fails exactly when a lookup it needs fails; `OccurrenceCounts` says what is selected |
| `GpoList.OccurrenceCounts` | libgpo/gpo_ldap.c:576-632 | a link contributes if and only if it is not disabled, its object is found, the token may apply it, and it is enforced or no container met before its own bars inheritance; it goes to the enforced list exactly when it is enforced |
| `GpoList.NoneMissingIs` | libgpo/gpo_ldap.c:602-615 | the walk comes to its end exactly when the object of every link that counts can be fetched, an empty one included |
| `GpoList.Walk.VisitKind` | libgpo/gpo_ldap.c:773-816 | one loop up the tree over the containers of one kind, blocking included |
| `GpoList.Walk.VisitSite` | libgpo/gpo_ldap.c:867-905 | the site's links come in front and block nothing |
| `GpoList.GetGpoList` | libgpo/gpo_ldap.c:733-949 | succeeds exactly when the argument checks and every needed lookup do; then the list is Local, unless only a readable site was asked for, and one entry for each chosen link of the containers by the directory alone: ordinary before enforced, outer before inner containers, links in their order |
| `GpoList.PolicyListTold` | libgpo/gpo_ldap.c:733-949 | the same of the declarative list: each entry is for one chosen link, no chosen link is without its entry, and the order is that of precedence |
| `GpoList.ListingIsOrdered` | libgpo/gpo_ldap.c:740-751 | the order behind that list: outermost container first, each container's links in link order |
| `GpoList.ListingIsComplete` | libgpo/gpo_ldap.c:740-751 | every link of every readable container is in the listing |
| `GpoList.SelectedExactly` | libgpo/gpo_ldap.c:576-632 | an entry is in the list exactly when a link contributes it; which links do is `OccurrenceCounts` |
| `Tokens.MeasureToken` | nsswitch/winbind_nss_linux.c:126-137 | the first pass finds the end of the token and the room it needs |
| `Tokens.CopyToken` | nsswitch/winbind_nss_linux.c:145-158 | the second pass fills exactly that room with the token and its terminator |
| `Tokens.NextToken` | nsswitch/winbind_nss_linux.c:94-161 | the next token and a cursor that moved on, or nothing exactly when no token is left |
| `Tokens.AllTokens` | lib/util/util_strlist_v3.c:47-120 | calling it until it stops gives all tokens |
| `Tokens.TokenizeJoin` | nsswitch/winbind_nss_linux.c:94-161 | cutting the join of plain names gives the names back |
| `Tokens.TokenizeQuoted` | nsswitch/winbind_nss_linux.c:94-161 | names in double quotes come back whatever is in them, separators or nothing at all |
| `Tokens.TokenizeAppend` | lib/util/util_str.c:141-211 | behind a text whose tokens are all ended, more text adds its own tokens |
| `Tokens.OpenAppend` | lib/util/util_str.c:141-211 | behind an open token, more text first continues it, and only what stands behind a separator adds tokens |
| `Decimal.AtoiPrint` | libgpo/gpo_ldap.c:215-216 | reading a printed number gives the number, negative ones included |
| `GpLinkText.ParseGpLink` | libgpo/gpo_ldap.c:155-231 | fails exactly if there is no piece between closing brackets or one without a semicolon; otherwise each piece gives its link: the text up to the first semicolon without an opening bracket in front, and the number behind it |
| `GpLinkText.AddGpoLink` | libgpo/gpo_ldap.c:286-339 | the new value is the old one with the link written behind it; refused exactly if the name does not start with LDAP://CN={ in whatever case |
| `GpLinkText.AppendThenParse` | libgpo/gpo_ldap.c:155-339 | for every old value: parsing after appending gives the old links and exactly the new one with its 32-bit option, if and only if the old value is closed and all links, and the name is free of bracket, semicolon and quote |
| `GpLinkText.OpenSwallows` | libgpo/gpo_ldap.c:155-339 | a link appended to an open value never comes back |
| `GpLinkText.SwallowedLink` | libgpo/gpo_ldap.c:318-325 | an instance, where the value can still be parsed |
| `GpLinkText.WriteAllThenParse` | libgpo/gpo_ldap.c:155-339 | any list of such links written one by one is read back as that list |
| `GpoReg.Registry.DeleteSubkeys` | source3/registry/reg_api.c:1011-1062 | removes everything below a key, or changes nothing; succeeds exactly when the key exists and the backend does not fail |
| `GpoReg.Registry.StoreDword` | libgpo/gpo_reg.c:186-198 | the number can be read back and no other value changes |
| `GpoReg.Registry.StoreValues` | libgpo/gpo_reg.c:254-301 | all nine values; whatever the key held before, reading it gives the policy, an absent link as the empty one; the policy is marked disabled exactly by the lowest bit of its options, passed and not denied |
| `GpoReg.Registry.ReadDword` | libgpo/gpo_reg.c:228-249 | fails for a missing value, a wrong type and too few bytes |
| `GpoReg.Registry.ReadValues` | libgpo/gpo_reg.c:572-603 | the five values read, or failure exactly when one of them cannot be |
| `GpoReg.StatePathIs` | libgpo/gpo_reg.c:448-456 | two states are one if and only if both are the machine's or both are of one SID; a SID that is the word Machine would be the machine's |
| `GpoReg.Registry.StateStore` | libgpo/gpo_reg.c:472-567 | each policy under its number, and the name it is for; old higher numbers remain exactly when the deletion failed; without faults it succeeds, and the old state is deleted if there was one; no other state changes; the state is the machine's exactly with the lowest flag and otherwise that of the SID |
| `GpoReg.Registry.StateRead` | libgpo/gpo_reg.c:633-704 | comes to an end; the policies of the machine or of the SID, as the lowest flag says, up to the first missing number, the last one first; without faults it fails only if there is no list |
| `GpoReg.EntriesBounded` | libgpo/gpo_reg.c:674-701 | different numbers name different keys, so that the reader's loop is bounded |
| `GpoReg.ReadAfterStore` | libgpo/gpo_reg.c:472-704 | reading after storing gives the stored list reversed if and only if the deletion succeeded or the old list had no entry behind the new one's last; otherwise the old ones come first |
| `GpoReg.StoreThenRead` | libgpo/gpo_reg.c:472-704 | the same for the two operations one after the other; without faults of the backend both succeed and the read gives the stored policies, however many were there before |
| `GpoReg.StoreAll` | libgpo/gpo_reg.c:472-704 | any sequence of stores for any users and the machine: without faults every state is there and lists what was stored for it last, where the last is told by flags and SID |
| `GpoReg.StoreAllThenRead` | libgpo/gpo_reg.c:472-704 | and reading any of the states then succeeds with the policies stored last for that SID or the machine: as many, from the last to the first, each field as it was but an absent link, now the empty one |
| `NssBuffer.Arena.GetStatic` | nsswitch/winbind_nss_linux.c:70-88 | a fresh stretch of the buffer exactly when enough is left |
| `NssBuffer.Arena.FillPasswd` | nsswitch/winbind_nss_linux.c:167-255 | succeeds exactly when the five strings with their terminators are no longer than what is left; then each of them is read at its offset, and they lie one after the other |
| `NssBuffer.Arena.FillMembers` | nsswitch/winbind_nss_linux.c:328-349 | succeeds exactly when the names with their terminators fit; then each name is read through its pointer, in token order, and the null pointer follows |
| `NssBuffer.GroupNeedIs` | nsswitch/winbind_nss_linux.c:261-351 | what a group takes up: two strings, the padding, eight bytes for each announced member and eight more, and the names with their terminators |
| `NssBuffer.Arena.FillGroup` | nsswitch/winbind_nss_linux.c:261-351 | succeeds exactly when names, padding, pointer array and members fit; then name, password and, through its pointer, each member are read as they are, the regions are in place and disjoint, the array is aligned and lists the tokens in order, then null |
| `NssEnum.Enumeration.SetEnt` | nsswitch/winbind_nss_linux.c:364-394 | drops the cached batch but not the pending retry; the daemon starts again at the first batch unless it refuses or the connection is lost |
| `NssEnum.Enumeration.EndEnt` | nsswitch/winbind_nss_linux.c:396-422 | drops the cached batch but not the pending retry; the daemon has no enumeration open afterwards |
| `NssEnum.Enumeration.Request` | nsswitch/winbind_nss_linux.c:451-476 | the next batch if the daemon has one open on this connection; a lost reply takes its batch along, a new connection or an error ends the enumeration |
| `NssEnum.Enumeration.Fetch` | nsswitch/winbind_nss_linux.c:445-486 | the cached entry or the next batch's first; nothing while a retry is awaited without its batch |
| `NssEnum.Enumeration.Settle` | nsswitch/winbind_nss_linux.c:488-512 | keeps its place when the entry did not fit, moves on by one when it did |
| `NssEnum.GetPwEnt` | nsswitch/winbind_nss_linux.c:430-521 | status, place and retry as the walk has them, where an entry fits exactly when its strings with their terminators take no more than is left; on success every string of the user is read at the offset returned |
| `NssEnum.GetGrEnt` | nsswitch/winbind_nss_linux.c:759-863 | the same for groups, where strings, padding, array and members have to fit; on success name, password and each member through the array are read as they are |
| `NssEnum.NothingSkipped` | nsswitch/winbind_nss_linux.c:364-521 | over all runs from the start: what was given since the last set or end and what is cached are the batches handed out, so that it is a prefix of the database, unless a reply was lost on a connection that stayed |
| `NssEnum.Walks` | nsswitch/winbind_nss_linux.c:364-521 | after a set, on one connection and not stuck: the next entry if it fits, TRYAGAIN if it does not, the end exactly when all of the database has been given |
| `NssEnum.Shuts` | nsswitch/winbind_nss_linux.c:364-486 | an end, a set or request that is refused or loses its connection, and a request on a new connection leave nothing open and nothing cached |
| `NssEnum.StaysShut` | nsswitch/winbind_nss_linux.c:364-521 | from then on no call gives an entry until the next set |
| `NssEnum.SetStartsAgain` | nsswitch/winbind_nss_linux.c:364-394 | after every set that succeeds the first entry of the database comes next |
| `NssEnum.WalksOn` | nsswitch/winbind_nss_linux.c:364-521 | the same told from the calls and their results alone: the n-th success since the set gives entry n |
| `NssEnum.StuckWhenBroken` | nsswitch/winbind_nss_linux.c:376-448 | the module is stuck if and only if a set or an end came while a retry was awaited |
| `NssEnum.SilentAfter` | nsswitch/winbind_nss_linux.c:445-486 | from then on every call reports that there is nothing, whatever is called between |
| `NssEnum.Strands` | nsswitch/winbind_nss_linux.c:376-448 | the sequence that gets there: a set, a first entry that does not fit, a set or an end before the retry |
| `NssEnum.RunPasswd` | nsswitch/winbind_nss_linux.c:364-521 | every run of the real calls, a buffer for each: each answer is the walk's, with every string of the user read in the buffer where it is said to be; after a set on one connection, unless a retry was broken, the successes show all users in order and the end comes after the last |
| `NssEnum.RunGroups` | nsswitch/winbind_nss_linux.c:693-877 | the same for groups, with name, password and, through the member array, every member read in the buffer |
| `GroupLists.GroupArray.Reserve` | nsswitch/winbind_nss_linux.c:1118-1144 | the array doubles, up to the limit, without losing an entry |
| `GroupLists.GroupArray.InitGroups` | nsswitch/winbind_nss_linux.c:1099-1150 | the old entries and then the daemon's groups without the primary and the unmapped ones, all of them or as many as a positive limit allows; succeeds exactly when the daemon sent a list and no allocation was refused, unavailable exactly when it could not be reached; a prefix of that otherwise |
| `GroupLists.Supplementary` | nsswitch/winbind_nss_linux.c:1107-1116 | neither the primary group nor the unmapped value, every other group the daemon sent, and no more entries than it sent |
| `GroupLists.SupplementaryAppend` | nsswitch/winbind_nss_linux.c:1099-1150 | order and repetitions are the daemon's |
| `GroupLists.Membership.AddGid` | nsswitch/winbind_nss_freebsd.c:61-82 | the array holds the first distinct groups that fit, and the count goes on behind it |
| `GroupLists.GetGroupMembership` | nsswitch/winbind_nss_freebsd.c:89-128 | unless an allocation is refused, the primary group and the daemon's groups are added to the array in order, each once |
| `GroupLists.AddNewExactly` | nsswitch/winbind_nss_freebsd.c:66-70 | adding one by one keeps the list free of duplicates and gives exactly the union |
| `GroupLists.MembershipComplete` | nsswitch/winbind_nss_freebsd.c:61-128 | the count is within the array if and only if all distinct groups fit; then the array holds each of old groups, primary and mapped daemon groups once |
| `SamReply.Append` | libcli/security/dom_sid.c:95-103 | appending a relative id and splitting it off again are inverse |
| `SamReply.ConvertBase` | auth/auth_sam_reply.c:28-138 | accepted exactly for tokens with the needed SIDs; every field, with the groups of the user's domain as relative ids in order |
| `SamReply.ConvertSam6` | auth/auth_sam_reply.c:142-210 | accepted exactly for tokens with the needed SIDs; the other SIDs of the token behind the second are split: those that extend the user's domain by one id as relative ids, the rest in full, each in their order and none lost; account information field by field, flags and keys |
| `SamReply.ConversionTold` | auth/auth_sam_reply.c:28-210 | the same of the specification, with the place each group comes from |
| `SamReply.Rebuild` | auth/auth_sam_reply.c:374-537 | refuses exactly a wrong level, a missing or too long domain SID, too many groups or SIDs, or no name; otherwise the SIDs are user, primary group and groups in the domain, then, at levels 3 and 6, exactly the extra SIDs that are there, in order; DNS domain and principal come from level 6 only; an all-zero key is no key |
| `SamReply.RebuiltSidsTold` | auth/auth_sam_reply.c:397-489 | the SIDs of the specification, told the same way |
| `SamReply.AcceptedBack` | auth/auth_sam_reply.c:28-537 | a converted token is accepted back exactly when it is within the counters' limits and an account name is known |
| `SamReply.SidsRoundTrip` | auth/auth_sam_reply.c:28-537 | after a round trip: user, primary group, the domain's groups and then the others, each in their order |
| `SamReply.RoundTripKeepsSids` | auth/auth_sam_reply.c:28-537 | the multiset of SIDs is unchanged if and only if the primary group is in the user's domain |
| `SamReply.RoundTripKeepsInfo` | auth/auth_sam_reply.c:272-334 | account information and proper session keys come back |
| `SamReply.ConvertTwice` | auth/auth_sam_reply.c:142-210 | converting again gives the same structure if and only if the account name was set |
| `DcReferral.Shuffle` | dfs_server/dfs_server_ad.c:42-56 | the in-place shuffle equals the sequence of exchanges given by the draws |
| `DcReferral.ShuffleIsBijective` | dfs_server/dfs_server_ad.c:42-56 | for distinct names every order results from exactly one sequence of draws, and every sequence of draws gives an order |
| `DcReferral.NameOf` | dfs_server/dfs_server_ad.c:230-281 | the DNS name in a DNS domain and else the account name without its last character |
| `DcReferral.NamedWhen` | dfs_server/dfs_server_ad.c:230-281 | a server has a name exactly when its computer object is found with the DNS name, or with an account name that is not empty |
| `DcReferral.GetDcsInSite` | dfs_server/dfs_server_ad.c:188-289 | the old and the site's names in the order that the random numbers give, which is a permutation of them; otherwise how the first server that cannot be named ends it |
| `DcReferral.GetDcs` | dfs_server/dfs_server_ad.c:295-481 | the client site's group first, then the others', each as the shuffles by the random numbers leave it; no group at all when there is no site |
| `DcReferral.FillGroup` | dfs_server/dfs_server_ad.c:748-782 | the entries of one group in order, up to the end of the array: the path of the share on the server, 600 seconds to live at level 3 and 900 at level 4, where the first of all starts a target set; what goes wrong first decides |
| `DcReferral.SysvolReferral` | dfs_server/dfs_server_ad.c:725-782 | one entry for each name in an array of the length that fits 16 bits; in bounds exactly below 65536; a null list without groups |
| `DcReferral.EachOnce` | dfs_server/dfs_server_ad.c:295-481 | every controller is listed once if and only if the names taken for the client's site are those of the sites of exactly that name |
| `DcReferral.DoSysvolReferral` | dfs_server/dfs_server_ad.c:677-785 | ends well exactly when the lookups do, there is a site, the level is known and the entries are in bounds; the entries are those for the shuffled client site's names and then the shuffled others; with one site of the client's name, or none sought, these are all controllers once each |
| `PamSids.Buffer.Append` | nsswitch/pam_winbind.c:1087-1094 | succeeds exactly when the text fits, and otherwise cuts it off; the buffer stays terminated |
| `PamSids.AppendSid` | nsswitch/pam_winbind.c:1107-1145 | a text that starts with S- is taken whole if it is shorter than 190 characters and else its first 189; any other name is looked up; succeeds exactly when that is known and fits |
| `PamSids.Finish` | nsswitch/pam_winbind.c:1215-1240 | the last name as far as it fits, or the comma written ahead taken back; fails only if nothing is there |
| `PamSids.ResolvedLists` | nsswitch/pam_winbind.c:1107-1212 | the list holds what every known name stands for, in order, and nothing else |
| `PamSids.NameListToSidList` | nsswitch/pam_winbind.c:1158-1246 | for every buffer size: what fits of the whole text, failing only when a comma is the first character not to fit or nothing is there; the SIDs are what the known names stand for, in order |
| `PamSids.OutcomeComplete` | nsswitch/pam_winbind.c:1158-1246 | the list is complete if and only if some name has a SID and it fits with the comma written ahead; when it would fit, it fails only if no name has a SID |
| `PamSids.OutcomeFails` | nsswitch/pam_winbind.c:1158-1246 | for every buffer size: it fails if and only if no name is known, there is no room for a character, or the first character of the list that does not fit is a comma; the text is always the front of the list |
| `PamSids.CutSidSucceeds` | nsswitch/pam_winbind.c:1087-1145 | an instance where the call succeeds with a SID cut short |
| `PamSids.NamesOfJoin` | nsswitch/pam_winbind.c:1179-1212 | cutting the complete list at its commas gives the SIDs back |
| `PamSids.JoinOfNames` | nsswitch/pam_winbind.c:1179-1212 | joining the names with commas gives the configured text back, so that no name is missed or changed |
| `Subunit.Parser.StartTest` | selftest/subunithelper.py:59-66 | a running test of the same name ends with an error that is not counted, and then the new one runs under that name |
| `Subunit.Parser.Decide` | selftest/subunithelper.py:108-183 | what each verdict does to the running tests, the reports, the counters and the exit code |
| `Subunit.Parser.FinishTests` | selftest/subunithelper.py:199-203 | every test still running gets its error, once, under its name |
| `Subunit.SkipReason` | selftest/subunithelper.py:84-94 | a reason reaches to the first line that ends it |
| `Subunit.ReasonIsSkipped` | selftest/subunithelper.py:78-94 | whatever commands its lines look like, a reason takes exactly the lines up to the one that ends it |
| `Subunit.ReasonIsCut` | selftest/subunithelper.py:101-104 | without such a line nothing more is read, and the name is kept for the error |
| `Subunit.PlainLines` | selftest/subunithelper.py:45-83 | every other line is one command |
| `Subunit.TallyIs` | selftest/subunithelper.py:108-183 | each counter counts the lines of its verdict: passes, expected failures, unexpected successes and failures of running tests, skips and errors of any, and as errors also the verdicts on tests that do not run and the restarts |
| `Subunit.ParseResults` | selftest/subunithelper.py:45-205 | the exit code is 0 if and only if every line is fine, no test is left over and no reason is cut short; equivalently, if no error or unexpected counter grew and no suite was bad; every counter grew by the number of lines with its verdict, the errors also by verdicts on tests that do not run and by leftovers, but not by restarts; the reports are those the lines give, each outcome for the test of its name, and then the leftovers |
| `Subunit.KeptAgrees` | selftest/subunithelper.py:45-183 | the reports kept test by test have the running names, the number of tests and the outcomes that are counted from the lines alone |
| `Subunit.EveryTestOnce` | selftest/subunithelper.py:45-205 | unless a reason is cut short every test that started has exactly one outcome |
| `Subunit.RestartIsNotAnError` | selftest/subunithelper.py:63-64 | a stream with a restarted test whose exit code is 0 |

## Left out

- Transport: liveness of the write restart loop; the daemon may hang up any number of times, and every run that ends is covered.
- Transport: that a split state is reached by an actual run; `SplitMisleads` shows it for the connections themselves.
- Transport: the choice of the client name, `winbindd_ctx_create` and the library destructor.
- Framing: `wb_simple_trans`, which chains one write and one read.
- The `keep_response` caches of getpwuid, getpwnam, getgrgid and getgrnam.
- NssBuffer: the offset of a group's members inside the reply; the member list is given.
- GpoList: the LDAP searches behind `ads_get_gpo_link`, `ads_get_gpo` and `ads_site_dn_for_machine`; the directory is a parameter.
- GpLinkText: `ads_delete_gpo_link`, which the source itself marks as broken.
- GpoReg: the group membership and security descriptor stored beside the state; they are an arbitrary change elsewhere in the registry.
- GpoReg: the recursion inside the deletion of keys, which runs in a transaction and is given by its effect.
- SamReply: `make_user_info_dc_pac` and the SamInfo2 and SamInfo3 wrappers.
- DcReferral: `dodc_referral` and `dodomain_referral`; the searches of the directory and which site the client's address belongs to.
- PamSids: messages to the user; lookups do not change while a list is built.
- Subunit: cutting a line into command and name; time and progress lines, which only pass through.
- Memory: talloc ownership and failing allocations, except where they decide whether a connection stays open, whether a group array can grow and what a registry operation returns.
