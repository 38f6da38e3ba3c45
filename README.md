# Pet dating bot: a verified model of matchmaking and complaint review

The system is a pair of Telegram bots over one SQLite database. In the matchmaking bot, owners browse
pet profiles near them, like or dislike them, and report them. Through a likes inbox they see who
liked them and can answer with a mutual like. In the admin bot, an allow-listed admin reviews the
complaints and can delete a reported profile.

This project models the state the bots keep and change:

- the four tables UserProfiles, Likes, Reports and Admins (`Store.Database`);
- the per-user cursors `user_states` and `complaint_states`;
- the report-reason form state.

## Design decisions

- **Tables.** Each table is a sequence of rows in table order (class `Database`). Likes and Reports
  have no key, so `INSERT OR REPLACE` appends a row. The Likes table is an append-only ledger of
  `LikeRow(userId, viewedId, state, viewedByUser)`.
- **Profile lookup.** A lookup by id returns the first matching row.
- **Coordinates.** They are optional reals. A coordinate counts only when it is present and non-zero,
  as in the Python tests `user[-3] and user[-2]` (`Types.Located`).
- **Distance.** The geodesic distance routine is a parameter `DistanceFn` of the selectors and a
  constant of the bot. Nothing is assumed about it.
- **Sessions.** A `user_states` entry is either a swipe cursor `Swipe(items, index, stop)` or an inbox
  cursor `Inbox(likers, index)`. A `complaint_states` entry is `Review(complaints, index)`.
- **Invariant.** Each bot class keeps `Valid()`: every stored cursor satisfies
  `1 <= index <= length`, and a stored swipe cursor is never stopped. Every handler preserves it.
- **Replies and notifications.**
  - What a handler says to the acting user is its returned `replies` sequence.
  - Messages to other users' chats are appended to `notices`.
  - A notification to another user's chat may fail (a NULL or unreachable ChatId). The handler
    that sends it takes the outcome as the parameter `delivered`: `HandleReaction` (the like
    notice, sent after the row is committed, so a failure raises after the write),
    `HandleLikeReaction` (the mutual-like notice, sent before the link is revealed and before
    the INSERT and DELETE, so a failure raises with nothing written and the cursor unmoved) and
    `AdminBot.HandleComplaintAction` (the deletion notice, whose failure is caught).
- **Exceptions.** A handler that raises is modelled by a `Crashed` reply. The state it leaves is
  exactly the writes made before the exception.
- **Specification functions.** Each loop-bearing method is proved against a pure function:
  - `GetAllProfiles` against `AllSpec`;
  - `GetNearbyProfiles` against `NearbySpec`;
  - `DrainMutualLikes` against `InboundJoin` and `MarkSeenAll`;
  - the reciprocate branch against `Reciprocate`.

  The promised properties are lemmas about those functions.

Where the repository's own description and its code differ, the model follows the code:

- The drain of `show_likes` selects the unseen mutual likes addressed to the requester, joined with
  their author's profile (bot.py:601-605). For each joined author, its UPDATE (bot.py:618) has no
  State filter: it flags every row from that author to the requester, plain likes and dislikes
  included (`Ledger.MarkSeenAt`). An unseen mutual like whose author has no profile is not joined,
  so it stays unseen; every other unseen mutual like to the requester is flagged
  (`Ledger.DrainClearsUnseen`).
- A swipe session is a snapshot. A profile deleted by an admin while someone is browsing is still
  shown from the stored list: bot.py:497 reads the cached row, not the table. What is proved instead
  is that any later search never offers a deleted user (`AdminBot.DeletedNeverOffered`).
- `get_all_profiles` at bot.py:105 is shadowed by the definition at bot.py:573. Only the later one is
  modelled.

## Model

| member | source | states |
|---|---|---|
| Ledger.FindProfileSpec | bot.py:94-97 | The lookup returns a row of the table with the requested id, and it is the first such row. It returns None iff no row has that id. |
| Ledger.ExcludedIds | bot.py:553-558 | The UNION holds exactly the users related to u by a ledger row in either direction. |
| Ledger.RelatedSymmetric | bot.py:553-558 | Relatedness through the ledger is symmetric. |
| Ledger.RelatedAppend | bot.py:457-462 | Appending a row adds exactly that row's pair to the related pairs. |
| Ledger.MarkSeenAt | bot.py:618 | One UPDATE keeps every row's pair and state. It sets the seen flag exactly on the rows from the liker to u. |
| Ledger.MarkSeenAllStep | bot.py:607-619 | One more loop iteration of the drain is one more UPDATE for the next fetched liker. |
| Ledger.MarkSeenAllAt | bot.py:607-619 | After the drain, a row is flagged seen iff it already was, or it goes from a drained liker to u. Pairs and states are unchanged. |
| Ledger.MarkSeenAllKeepsRelations | bot.py:618 | The drain never changes which users are related, so it never changes the search exclusions. |
| Ledger.ProfilesWithIdMembers | bot.py:602-603 | The join partner of a ledger row is exactly the profiles with that row's author id. |
| Ledger.InboundJoinMembers | bot.py:601-605 | An inbox query returns a profile iff that profile is in the table and some matching ledger row comes from it. |
| Ledger.InboundJoinIgnoresSeen | bot.py:622-625 | The plain-like query does not depend on seen flags: two ledgers that differ only in flags give the same inbox. |
| Ledger.DrainKeepsInbox | bot.py:617-625 | The inbox opened after the drain equals the inbox of the ledger before the drain. |
| Ledger.DrainClearsUnseen | bot.py:601-619 | After the drain, every unseen mutual like to u has an author with no profile. All others are flagged seen. |
| Ledger.DeleteLikes | bot.py:697-698 | The DELETE removes exactly the plain likes from the liker to u and keeps all other rows. |
| Ledger.DeleteLikesAppend | bot.py:693-698 | A row the DELETE does not match survives it, at the end. |
| Ledger.ReciprocateEffect | bot.py:693-700 | Reciprocating removes every plain like from the liker to u and keeps the other rows in order. It appends exactly one unseen mutual like from u to the liker. |
| Ledger.ReciprocateKeepsExclusion | bot.py:693-700 | After reciprocating, the related pairs are the old ones plus (u, liker), so the pair stays excluded from search. |
| Ledger.Between | bot.py:693-698 | The rows between two users are exactly the ledger rows linking them, in order. |
| Ledger.BetweenAppend | bot.py:693-694 | An appended row joins the rows between its two users and no other pair's rows. |
| Ledger.BetweenDelete | bot.py:697-698 | If every row from the liker to u is a plain like, the DELETE leaves no row between them. |
| Ledger.LikeThenReciprocate | bot.py:457-462 | For a fresh pair, a like followed by reciprocation leaves exactly one unseen mutual like between them, authored by the liked user. |
| Selection.OtherProfiles | bot.py:560 | `UserId != ?` keeps exactly the other users' profiles. |
| Selection.ScanMembers | bot.py:563-566 | The scan returns exactly the other profiles that are unexcluded and located, each paired with its distance from the requester. |
| Selection.ScanAppend | bot.py:589-593 | One more scanned profile appends at most its own candidate. |
| Selection.WithinRadiusMembers | bot.py:567-568 | The radius filter keeps exactly the candidates at most the given distance away. |
| Selection.WithinRadiusAppend | bot.py:567-568 | Filtering distributes over appending one candidate. |
| Selection.NearbyStep | bot.py:563-568 | One more iteration of the nearby loop appends the profile's candidate iff it is eligible and within the radius. |
| Selection.InsertMembers | bot.py:569 | Insertion adds exactly the inserted candidate to the multiset, and nothing else appears. |
| Selection.InsertFacts | bot.py:569 | Insertion into a sorted list keeps it sorted. |
| Selection.InsertAtDistance | bot.py:569 | Insertion keeps the relative order of equal-distance candidates. |
| Selection.SortByDistanceCorrect | bot.py:569 | The sort by distance is non-decreasing, is a permutation, and is stable. |
| Selection.CollectNearby | bot.py:560-568 | The nearby loop accumulates the eligible candidates of the scan within the radius, in scan order. |
| Selection.NearbyUpToScan | bot.py:562-568 | The nearby list after n loop iterations is the radius filter of the scan of the first n profiles. |
| Selection.ScanUpToScan | bot.py:588-594 | The all-mode list after n loop iterations is the scan of the first n profiles. |
| Selection.CollectAll | bot.py:586-594 | The all-mode loop pairs every eligible profile with its distance, in scan order, with no radius filter. |
| Selection.GetNearbyProfiles | bot.py:547-570 | The nearby selector returns NearbySpec of the two tables. |
| Selection.GetAllProfiles | bot.py:573-595 | The all-mode selector returns AllSpec of the two tables. |
| Selection.NoLocationNoCandidates | bot.py:549-550 | A requester without a profile, or without both coordinates, gets no candidates in either mode. |
| Selection.AllSpecExact | bot.py:573-595 | A candidate is listed in all mode iff it is admissible: another user's located profile, unrelated to the requester, at its distance from the requester's position. |
| Selection.NearbySpecExact | bot.py:547-570 | Nearby mode lists exactly the admissible candidates within the radius. The list is sorted non-decreasingly and stable with respect to scan order. |
| Selection.Profiles | bot.py:497 | The profiles of a candidate list, in order. |
| Selection.ProfilesAppend | bot.py:593 | Taking profiles distributes over concatenation. |
| Selection.ScanOtherIsOfferable | bot.py:586-594 | The scan's profiles are the table's offerable profiles in table order. |
| Selection.AllKeepsScanOrder | bot.py:586-594 | All mode applies no distance filter and keeps the profile scan order. |
| Selection.ReactionsAreFinal | bot.py:553-564 | Once a ledger row links two users, neither is ever offered to the other again, in either mode. |
| Decimal.ValueOfShow | bot_admin.py:43 | Parsing the decimal text of a number gives the number back. |
| Decimal.ValuePositive | bot.py:205 | A digit string denotes a positive number iff one of its digits is not '0'. |
| Decimal.ValidAgeIff | bot.py:205 | An age is accepted iff the text is present, non-empty and all digits, and not all zeros. |
| Decimal.ShownAgeIsValid | bot.py:371 | Every positive number written in decimal is an accepted age. |
| MatchBot.NextCardAdvances | bot.py:486-510 | A stopped cursor, or one whose items are used up, is popped. Otherwise items[index] is shown, the index grows by exactly one and the items are kept. |
| MatchBot.NextLikeAdvances | bot.py:639-661 | An inbox cursor whose likers are used up is popped. Otherwise likers[index] is shown and the index grows by exactly one. |
| MatchBot.MatchBot.SendNextProfile | bot.py:486-510 | A missing cursor replies "stopped". A stopped or used-up cursor is popped with the matching reply. Otherwise the next card is shown and the cursor advances. An inbox-shaped cursor raises. Valid() holds after. |
| MatchBot.MatchBot.FetchListing | bot.py:475-478 | The start of a session calls the nearby or the all-mode selector, as the mode says. |
| MatchBot.MatchBot.StartProfileSending | bot.py:474-484 | An empty listing stores no cursor. Otherwise the cursor holds the listing with index 1 and the first card is shown. |
| MatchBot.MatchBot.HandleReaction | bot.py:434-472 | No cursor: nothing is written. Sleep pops the cursor and writes nothing. A like or dislike appends exactly one row for the card on screen, then advances. Only a like notifies, to the target's ChatId. A like whose target profile is gone, or whose notification fails, raises after the row is written, with no notice and the cursor unmoved. |
| MatchBot.MatchBot.HandleComplaint | bot.py:515-521 | Without a cursor, the report button writes nothing. With one, the bot waits for the reason. |
| MatchBot.MatchBot.ProcessComplaint | bot.py:525-545 | The reason (the message text, None for a message without text, stored as a NULL description) appends exactly one Report and one dislike for the card on screen. The form state is cleared, then the session resumes from the unchanged index. With no swipe cursor it raises before any write. |
| MatchBot.MatchBot.SendNextLike | bot.py:639-661 | A missing or used-up inbox cursor is popped ("all likes viewed"). Otherwise the next liker is shown and the index advances. |
| MatchBot.MatchBot.DrainMutualLikes | bot.py:599-619 | The drain shows each unseen mutual like addressed to u, in join order. Its ledger afterwards is MarkSeenAll over the drained likers. Profiles and reports are unchanged. |
| MatchBot.MatchBot.ShowLikes | bot.py:598-636 | After the drain, no plain likes means no cursor, and the reply depends on whether the drain found anything. Otherwise an inbox cursor over the plain likes is stored with index 1 and the first liker is shown. |
| MatchBot.MatchBot.HandleLikeReaction | bot.py:665-702 | No cursor: nothing written. Stop pops. Skip leaves the ledger unchanged and advances. Reciprocating notifies the liker's ChatId, reveals their link, sets the ledger to Reciprocate and advances. A liker without a profile, or a failed notification, raises before any write, with no link revealed and the cursor unmoved. |
| AdminBot.AdminIdsSpec | bot_admin.py:43 | The id list exists iff every AdminUserId is a digit string. It then holds each row's value in table order. |
| AdminBot.IsAdminIff | bot_admin.py:39-44 | A user is an admin iff every AdminUserId parses and one of them denotes the user's id. The check raises iff some AdminUserId does not parse. |
| AdminBot.ShownAdminsAreAdmins | bot_admin.py:39-44 | For integer ids stored as decimal text, the admin check is plain membership. |
| AdminBot.ReportJoinMembers | bot_admin.py:61-63 | A report joins exactly the profiles with the reported id, keeping its description. |
| AdminBot.ComplaintsMembers | bot_admin.py:61-64 | The complaint listing holds exactly the reports whose reported user still has a profile, each paired with that profile. |
| AdminBot.RemoveProfileMembers | bot_admin.py:113 | The profile DELETE keeps exactly the other users' profiles. |
| AdminBot.RemoveReportsMembers | bot_admin.py:114 | The report DELETE keeps exactly the reports against other users. |
| AdminBot.WithoutTargetMembers | bot_admin.py:111-114 | Dropping a user's complaints keeps exactly the complaints about others. |
| AdminBot.WithoutTargetAppend | bot_admin.py:111-114 | Dropping a user's complaints distributes over concatenation. |
| AdminBot.ReportJoinRemove | bot_admin.py:113 | Joining a report after the profile delete equals joining before it and dropping the deleted user's complaints. |
| AdminBot.ReportJoinAgainst | bot_admin.py:114 | A report against the deleted user yields only complaints about that user. |
| AdminBot.DeleteRemovesComplaints | bot_admin.py:111-114 | After the delete, the complaint listing is exactly the old listing minus the complaints about the deleted user, in order. |
| AdminBot.RemoveProfileLookup | bot_admin.py:113 | After the delete, the user has no profile and every other user keeps the one they had. |
| AdminBot.DeletedNeverOffered | bot_admin.py:113 | A deleted user is never offered to anyone by a later search, in either mode. |
| AdminBot.NextComplaintAdvances | bot_admin.py:73-92 | A used-up review cursor is popped. Otherwise complaints[index] is shown and the index grows by exactly one. |
| AdminBot.AdminBot.SendNextComplaint | bot_admin.py:73-92 | No cursor replies "all reviewed" and changes nothing. Otherwise the cursor advances or is popped, as NextComplaint says. Valid() holds after. |
| AdminBot.AdminBot.ShowComplaints | bot_admin.py:55-71 | A non-admin gets "no access". An empty listing stores no cursor. Otherwise the cursor holds the listing with index 1 and the first complaint is shown. A non-numeric AdminUserId raises. |
| AdminBot.AdminBot.HandleComplaintAction | bot_admin.py:95-128 | No cursor: nothing written. Stop pops with no writes. Delete removes the target's profile and every report against it, leaves all else unchanged, notifies the target's chat or reports the failure, then advances. Keep raises with nothing changed. |

## Left out

- Telegram I/O: captions, keyboards, photos, `delete_message`, polling and command registration.
  Replies are tags, and messages to other chats are notice records.
- Geodesic distance (geopy, floating point): it is an arbitrary function parameter. Distances are
  reals, compared with the radius exactly.
- The profile creation and edit forms (bot.py:167-411) and event creation (bot_admin.py:131-226). Of
  the forms, only the age check is modelled.
- The events listing (bot.py:705-717): it depends on SQL `CURRENT_DATE`, a clock.
- Database mechanics: connections, commits and `init_db`/`reset_db`. Each handler's writes are applied
  atomically, in the order the code issues them.
- Concurrency between handlers and between the two bots. Each operation runs to completion alone.
- Join order: SQLite may order join results differently. The model takes the outer table's order
  (Likes for the inbox queries, Reports for complaints), then profile table order.
- The primary key of UserProfiles is not imposed on the profile sequence. Every lookup and join is
  stated for duplicate ids too.
- A failed send to the acting user's own chat (a reply, a photo of the drain): replies are always
  delivered. Failed notifications to other chats are modelled, through `delivered`.
- The handler registration quirk of bot_admin.py:94 is left out: `handle_complaint_action` is
  modelled as an ordinary handler.
- AdminBot.AdminIds: the number forms `int()` also accepts (surrounding whitespace, a sign,
  underscores, non-ASCII digits) are treated as unparsable, i.e. they raise in the model.
- Decimal.ValidAge: only ASCII digits count as digits. `str.isdigit` also accepts other Unicode
  digits.
- AdminBot.AdminBot.HandleComplaintAction: the keep branch deletes from a Complaints table that is
  never created. It is modelled as raising with no state change, and the cursor does not advance.
