/** The admin bot: the allow-list check and the review of complaints, where an admin walks
    through the reports against existing profiles and may delete the reported profile. */
module AdminBot {
  import opened Types
  import opened Decimal
  import opened Ledger
  import opened Selection
  import opened Store

  /** One row of the complaint query: the report's description and the reported profile. */
  datatype Complaint = Complaint(description: Option<string>, target: Profile)

  /** The review cursor of one admin: complaint_states[admin]. */
  datatype Review = Review(complaints: seq<Complaint>, index: nat)

  /** The buttons of the review keyboard: delete the profile, keep it, stop. */
  datatype AdminAction = DeleteAction | KeepAction | StopAction

  /** What the admin bot says to the acting admin. */
  datatype AdminReply =
    | NoAccess            // you have no access
    | NoComplaints        // no complaints yet
    | AllReviewed         // all complaints reviewed
    | ShowComplaint(complaint: Complaint)
    | ReviewNotActive     // reviewing complaints is not active
    | ReviewStopped       // you stopped reviewing complaints
    | ProfileDeleted      // the profile was deleted
    | NotifyFailed        // the owner could not be notified
    | Crashed             // the handler raised an exception at this point

  /** A message the matchmaking bot sends on the admin's behalf: chat_id is the deleted user's id. */
  datatype AdminNotice = AccountDeleted(chat: int)

  // ---------------------------------------------------------------------------------------------
  // The allow-list

  /** `[int(admin[0]) for admin in admins]`: None when some AdminUserId text is not a digit string
      (int() raises). */
  function AdminIds(rows: seq<string>): Option<seq<nat>>
  {
    if rows == [] then Some([])
    else if !IsDigits(rows[0]) then None
    else match AdminIds(rows[1..])
         case None => None
         case Some(rest) => Some([Value(rows[0])] + rest)
  }

  /** is_admin: None when the comprehension raises. */
  function IsAdmin(rows: seq<string>, u: UserId): Option<bool>
  {
    match AdminIds(rows)
    case None => None
    case Some(ids) => Some(u in ids)
  }

  /** The id list exists iff every row is a digit string, and then it holds each row's value in
      table order. */
  lemma {:induction false} AdminIdsSpec(rows: seq<string>)
    ensures AdminIds(rows).Some? <==> forall k :: 0 <= k < |rows| ==> IsDigits(rows[k])
    ensures AdminIds(rows).Some? ==>
      && |AdminIds(rows).value| == |rows|
      && forall k :: 0 <= k < |rows| ==> IsDigits(rows[k]) && AdminIds(rows).value[k] == Value(rows[k])
    decreases |rows|
  {
    if rows != [] {
      AdminIdsSpec(rows[1..]);
      if IsDigits(rows[0]) && AdminIds(rows[1..]).Some? {
        var rest := AdminIds(rows[1..]).value;
        forall k | 0 <= k < |rows|
          ensures IsDigits(rows[k]) && AdminIds(rows).value[k] == Value(rows[k])
        {
          if k > 0 {
            assert rows[k] == rows[1..][k - 1];
          }
        }
      } else if IsDigits(rows[0]) {
        var k :| 0 <= k < |rows[1..]| && !IsDigits(rows[1..][k]);
        assert !IsDigits(rows[k + 1]);
      }
    }
  }

  /** A user is an admin iff every AdminUserId parses and one of them denotes the user's id;
      the check raises iff some AdminUserId does not parse. */
  lemma IsAdminIff(rows: seq<string>, u: UserId)
    ensures IsAdmin(rows, u).None? <==> exists k :: 0 <= k < |rows| && !IsDigits(rows[k])
    ensures IsAdmin(rows, u) == Some(true) <==>
      && (forall k :: 0 <= k < |rows| ==> IsDigits(rows[k]))
      && exists k :: 0 <= k < |rows| && IsDigits(rows[k]) && Value(rows[k]) == u
  {
    AdminIdsSpec(rows);
    if AdminIds(rows).Some? {
      var ids := AdminIds(rows).value;
      if u in ids {
        var k :| 0 <= k < |ids| && ids[k] == u;
        assert IsDigits(rows[k]) && Value(rows[k]) == u;
      }
    }
  }

  /** The admin ids as SQLite stores integers written to the TEXT column. */
  function ShownIds(ids: seq<nat>): seq<string>
  {
    seq(|ids|, k requires 0 <= k < |ids| => Show(ids[k]))
  }

  /** Storing integer ids and checking a user against them is plain membership. */
  lemma ShownAdminsAreAdmins(ids: seq<nat>, u: UserId)
    ensures IsAdmin(ShownIds(ids), u) == Some(u in ids)
  {
    var rows := ShownIds(ids);
    forall k | 0 <= k < |ids|
      ensures IsDigits(rows[k]) && Value(rows[k]) == ids[k]
    {
      ValueOfShow(ids[k]);
    }
    AdminIdsSpec(rows);
    assert AdminIds(rows).value == ids;
  }

  // ---------------------------------------------------------------------------------------------
  // The complaint query and the delete statements

  /** The profiles one report joins with, in table order. */
  function ReportJoin(r: Report, profiles: seq<Profile>): seq<Complaint>
  {
    if profiles == [] then []
    else (if profiles[0].userId == r.reportedId then [Complaint(r.description, profiles[0])] else [])
         + ReportJoin(r, profiles[1..])
  }

  /** `Reports r JOIN UserProfiles u ON r.ReportedId = u.UserId`, driven by the reports in table order. */
  function Complaints(reports: seq<Report>, profiles: seq<Profile>): seq<Complaint>
  {
    if reports == [] then []
    else ReportJoin(reports[0], profiles) + Complaints(reports[1..], profiles)
  }

  /** `DELETE FROM UserProfiles WHERE UserId = t`. */
  function RemoveProfile(profiles: seq<Profile>, t: UserId): seq<Profile>
  {
    if profiles == [] then []
    else (if profiles[0].userId == t then [] else [profiles[0]]) + RemoveProfile(profiles[1..], t)
  }

  /** `DELETE FROM Reports WHERE ReportedId = t`. */
  function RemoveReportsAgainst(reports: seq<Report>, t: UserId): seq<Report>
  {
    if reports == [] then []
    else (if reports[0].reportedId == t then [] else [reports[0]]) + RemoveReportsAgainst(reports[1..], t)
  }

  /** The complaints not about t, in order. */
  function WithoutTarget(cs: seq<Complaint>, t: UserId): seq<Complaint>
  {
    if cs == [] then []
    else (if cs[0].target.userId == t then [] else [cs[0]]) + WithoutTarget(cs[1..], t)
  }

  /** The profile delete keeps exactly the profiles of other users. */
  lemma {:induction false} RemoveProfileMembers(profiles: seq<Profile>, t: UserId)
    ensures forall p :: p in RemoveProfile(profiles, t) <==> p in profiles && p.userId != t
    decreases |profiles|
  {
    if profiles != [] {
      RemoveProfileMembers(profiles[1..], t);
      forall p ensures p in profiles <==> p == profiles[0] || p in profiles[1..] {
        if p in profiles && p != profiles[0] {
          var k :| 0 <= k < |profiles| && profiles[k] == p;
          assert profiles[1..][k - 1] == p;
        }
      }
    }
  }

  /** The report delete keeps exactly the reports against other users. */
  lemma {:induction false} RemoveReportsMembers(reports: seq<Report>, t: UserId)
    ensures forall x :: x in RemoveReportsAgainst(reports, t) <==> x in reports && x.reportedId != t
    decreases |reports|
  {
    if reports != [] {
      RemoveReportsMembers(reports[1..], t);
      forall x ensures x in reports <==> x == reports[0] || x in reports[1..] {
        if x in reports && x != reports[0] {
          var k :| 0 <= k < |reports| && reports[k] == x;
          assert reports[1..][k - 1] == x;
        }
      }
    }
  }

  /** The filter keeps exactly the complaints about other users. */
  lemma {:induction false} WithoutTargetMembers(cs: seq<Complaint>, t: UserId)
    ensures forall c :: c in WithoutTarget(cs, t) <==> c in cs && c.target.userId != t
    decreases |cs|
  {
    if cs != [] {
      WithoutTargetMembers(cs[1..], t);
      forall c ensures c in cs <==> c == cs[0] || c in cs[1..] {
        if c in cs && c != cs[0] {
          var k :| 0 <= k < |cs| && cs[k] == c;
          assert cs[1..][k - 1] == c;
        }
      }
    }
  }

  lemma {:induction false} WithoutTargetAppend(a: seq<Complaint>, b: seq<Complaint>, t: UserId)
    ensures WithoutTarget(a + b, t) == WithoutTarget(a, t) + WithoutTarget(b, t)
    decreases |a|
  {
    if a == [] {
      assert a + b == b;
    } else {
      var h := if a[0].target.userId == t then [] else [a[0]];
      assert a + b != [] && (a + b)[0] == a[0];
      assert (a + b)[1..] == a[1..] + b;
      assert WithoutTarget(a, t) == h + WithoutTarget(a[1..], t);
      assert WithoutTarget(a + b, t) == h + WithoutTarget(a[1..] + b, t);
      WithoutTargetAppend(a[1..], b, t);
      assert h + (WithoutTarget(a[1..], t) + WithoutTarget(b, t))
          == (h + WithoutTarget(a[1..], t)) + WithoutTarget(b, t);
    }
  }

  /** Each complaint of a report is about the reported user and some profile of the table. */
  lemma {:induction false} ReportJoinMembers(r: Report, profiles: seq<Profile>)
    ensures forall c :: c in ReportJoin(r, profiles) <==>
      c.target in profiles && c.target.userId == r.reportedId && c.description == r.description
    decreases |profiles|
  {
    if profiles != [] {
      ReportJoinMembers(r, profiles[1..]);
      forall c ensures c in ReportJoin(r, profiles) <==>
        c.target in profiles && c.target.userId == r.reportedId && c.description == r.description
      {
        if c.target in profiles && c.target != profiles[0] {
          var k :| 0 <= k < |profiles| && profiles[k] == c.target;
          assert profiles[1..][k - 1] == c.target;
        }
      }
    }
  }

  /** The listing holds exactly the reports whose reported user still has a profile, each joined
      with that profile. */
  lemma {:induction false} ComplaintsMembers(reports: seq<Report>, profiles: seq<Profile>, c: Complaint)
    ensures c in Complaints(reports, profiles) <==>
      c.target in profiles
      && exists k :: 0 <= k < |reports| && reports[k].reportedId == c.target.userId
                     && reports[k].description == c.description
    decreases |reports|
  {
    if reports != [] {
      ComplaintsMembers(reports[1..], profiles, c);
      ReportJoinMembers(reports[0], profiles);
      if exists k :: 0 <= k < |reports| && reports[k].reportedId == c.target.userId
                     && reports[k].description == c.description {
        var k :| 0 <= k < |reports| && reports[k].reportedId == c.target.userId
                 && reports[k].description == c.description;
        if k > 0 {
          assert reports[1..][k - 1] == reports[k];
        }
      }
      if exists k :: 0 <= k < |reports[1..]| && reports[1..][k].reportedId == c.target.userId
                     && reports[1..][k].description == c.description {
        var k :| 0 <= k < |reports[1..]| && reports[1..][k].reportedId == c.target.userId
                 && reports[1..][k].description == c.description;
        assert reports[k + 1] == reports[1..][k];
      }
    }
  }

  lemma {:induction false} ReportJoinRemove(r: Report, profiles: seq<Profile>, t: UserId)
    ensures ReportJoin(r, RemoveProfile(profiles, t)) == WithoutTarget(ReportJoin(r, profiles), t)
    decreases |profiles|
  {
    if profiles != [] {
      ReportJoinRemove(r, profiles[1..], t);
      var head := if profiles[0].userId == r.reportedId then [Complaint(r.description, profiles[0])] else [];
      WithoutTargetAppend(head, ReportJoin(r, profiles[1..]), t);
      assert WithoutTarget(head, t) == if profiles[0].userId == t then [] else head;
      if profiles[0].userId == t {
        assert RemoveProfile(profiles, t) == RemoveProfile(profiles[1..], t);
      } else {
        var rest := RemoveProfile(profiles[1..], t);
        assert RemoveProfile(profiles, t) == [profiles[0]] + rest;
        assert ([profiles[0]] + rest)[0] == profiles[0];
        assert ([profiles[0]] + rest)[1..] == rest;
      }
    }
  }

  lemma {:induction false} ReportJoinAgainst(r: Report, profiles: seq<Profile>)
    ensures WithoutTarget(ReportJoin(r, profiles), r.reportedId) == []
    decreases |profiles|
  {
    if profiles != [] {
      ReportJoinAgainst(r, profiles[1..]);
      var head := if profiles[0].userId == r.reportedId then [Complaint(r.description, profiles[0])] else [];
      WithoutTargetAppend(head, ReportJoin(r, profiles[1..]), r.reportedId);
    }
  }

  /** Deleting a profile together with the reports against it removes exactly the complaints
      about that user from the listing, and keeps the others in order. */
  lemma {:induction false} DeleteRemovesComplaints(reports: seq<Report>, profiles: seq<Profile>, t: UserId)
    ensures Complaints(RemoveReportsAgainst(reports, t), RemoveProfile(profiles, t))
         == WithoutTarget(Complaints(reports, profiles), t)
    decreases |reports|
  {
    if reports != [] {
      DeleteRemovesComplaints(reports[1..], profiles, t);
      WithoutTargetAppend(ReportJoin(reports[0], profiles), Complaints(reports[1..], profiles), t);
      if reports[0].reportedId == t {
        ReportJoinAgainst(reports[0], profiles);
        assert RemoveReportsAgainst(reports, t) == RemoveReportsAgainst(reports[1..], t);
        assert [] + WithoutTarget(Complaints(reports[1..], profiles), t)
            == WithoutTarget(Complaints(reports[1..], profiles), t);
      } else {
        ReportJoinRemove(reports[0], profiles, t);
        var rest := RemoveReportsAgainst(reports[1..], t);
        assert RemoveReportsAgainst(reports, t) == [reports[0]] + rest;
        assert ([reports[0]] + rest)[1..] == rest;
      }
    }
  }

  /** After the delete the user has no profile, and every other user keeps the one they had. */
  lemma {:induction false} RemoveProfileLookup(profiles: seq<Profile>, t: UserId, x: UserId)
    ensures FindProfile(RemoveProfile(profiles, t), x) == if x == t then None else FindProfile(profiles, x)
    decreases |profiles|
  {
    if profiles != [] {
      RemoveProfileLookup(profiles[1..], t, x);
      var rest := RemoveProfile(profiles[1..], t);
      if profiles[0].userId != t {
        assert RemoveProfile(profiles, t) == [profiles[0]] + rest;
        assert ([profiles[0]] + rest)[0] == profiles[0];
        assert ([profiles[0]] + rest)[1..] == rest;
      } else {
        assert RemoveProfile(profiles, t) == rest;
      }
    }
  }

  /** A deleted user is never offered to anyone afterwards, in either search mode. */
  lemma DeletedNeverOffered(profiles: seq<Profile>, likes: seq<LikeRow>, t: UserId, u: UserId, dist: DistanceFn, maxKm: real)
    ensures forall c :: c in AllSpec(RemoveProfile(profiles, t), likes, u, dist) ==> c.profile.userId != t
    ensures forall c :: c in NearbySpec(RemoveProfile(profiles, t), likes, u, dist, maxKm) ==> c.profile.userId != t
  {
    var ps := RemoveProfile(profiles, t);
    RemoveProfileMembers(profiles, t);
    forall c | c in AllSpec(ps, likes, u, dist) ensures c.profile.userId != t {
      AllSpecExact(ps, likes, u, dist, c);
    }
    NearbySpecExact(ps, likes, u, dist, maxKm);
    forall c | c in NearbySpec(ps, likes, u, dist, maxKm) ensures c.profile.userId != t {
      AllSpecExact(ps, likes, u, dist, c);
    }
  }

  // ---------------------------------------------------------------------------------------------
  // The review cursor

  /** A stored review cursor points one past the complaint on screen. */
  predicate Shown(s: Review) {
    1 <= s.index <= |s.complaints|
  }

  /** One step of send_next_complaint on an existing cursor: the new entry (None: popped) and the reply. */
  function NextComplaint(s: Review): (Option<Review>, AdminReply)
  {
    if s.index >= |s.complaints| then (None, AllReviewed)
    else (Some(Review(s.complaints, s.index + 1)), ShowComplaint(s.complaints[s.index]))
  }

  /** Advancing a fresh or a shown cursor either shows complaints[index] and moves the index by
      exactly one, or removes the cursor because the complaints are used up. */
  lemma NextComplaintAdvances(s: Review)
    requires s.index <= |s.complaints|
    ensures NextComplaint(s).0.None? <==> s.index == |s.complaints|
    ensures NextComplaint(s).0.Some? ==>
      && NextComplaint(s).0.value == Review(s.complaints, s.index + 1)
      && NextComplaint(s).1 == ShowComplaint(s.complaints[s.index])
      && Shown(NextComplaint(s).0.value)
  {
  }

  class AdminBot {
    const db: Database
    /** complaint_states. */
    var reviews: map<UserId, Review>
    /** Messages sent to deleted users' chats, in order. */
    var notices: seq<AdminNotice>

    ghost predicate Valid()
      reads this
    {
      forall v :: v in reviews ==> Shown(reviews[v])
    }

    /** Every other cursor is shown; u's cursor may also be fresh (index 0). */
    ghost predicate ReviewReady(u: UserId)
      reads this
    {
      && (forall v :: v in reviews && v != u ==> Shown(reviews[v]))
      && (u in reviews ==> reviews[u].index <= |reviews[u].complaints|)
    }

    constructor (db: Database)
      ensures Valid()
      ensures this.db == db && reviews == map[] && notices == []
    {
      this.db := db;
      reviews := map[];
      notices := [];
    }

    /** send_next_complaint. */
    method SendNextComplaint(u: UserId) returns (replies: seq<AdminReply>)
      requires ReviewReady(u)
      modifies this
      ensures Valid()
      ensures notices == old(notices)
      ensures u !in old(reviews) ==> reviews == old(reviews) && replies == [AllReviewed]
      ensures u in old(reviews) ==>
        var step := NextComplaint(old(reviews)[u]);
        reviews == Put(old(reviews), u, step.0) && replies == [step.1]
    {
      if u !in reviews {
        replies := [AllReviewed];
        return;
      }
      var state := reviews[u];
      if state.index >= |state.complaints| {
        replies := [AllReviewed];
        reviews := reviews - {u};
        return;
      }
      replies := [ShowComplaint(state.complaints[state.index])];
      reviews := reviews[u := Review(state.complaints, state.index + 1)];
    }

    /** show_complaints: check the allow-list, run the complaint query, store a fresh cursor and
        show the first complaint. */
    method ShowComplaints(u: UserId) returns (replies: seq<AdminReply>)
      requires Valid()
      modifies this
      ensures Valid()
      ensures notices == old(notices)
      ensures IsAdmin(db.adminRows, u).None? ==> reviews == old(reviews) && replies == [Crashed]
      ensures IsAdmin(db.adminRows, u) == Some(false) ==> reviews == old(reviews) && replies == [NoAccess]
      ensures IsAdmin(db.adminRows, u) == Some(true) ==>
        var cs := Complaints(db.reports, db.profiles);
        if cs == [] then reviews == old(reviews) && replies == [NoComplaints]
        else reviews == old(reviews)[u := Review(cs, 1)] && replies == [ShowComplaint(cs[0])]
    {
      var admin := IsAdmin(db.adminRows, u);
      if admin.None? {
        // int() raised on a non-numeric AdminUserId
        replies := [Crashed];
        return;
      }
      if !admin.value {
        replies := [NoAccess];
        return;
      }
      var complaints := Complaints(db.reports, db.profiles);
      if complaints == [] {
        replies := [NoComplaints];
        return;
      }
      ghost var before := reviews;
      reviews := reviews[u := Review(complaints, 0)];
      replies := SendNextComplaint(u);
      assert reviews == before[u := Review(complaints, 1)];
    }

    /** handle_complaint_action. The handler itself does not consult the allow-list. */
    method HandleComplaintAction(u: UserId, action: AdminAction, delivered: bool) returns (replies: seq<AdminReply>)
      requires Valid()
      modifies this, db
      ensures Valid()
      ensures db.likes == old(db.likes) && db.adminRows == old(db.adminRows)
      ensures u !in old(reviews) ==>
        reviews == old(reviews) && db.profiles == old(db.profiles) && db.reports == old(db.reports)
        && notices == old(notices) && replies == [ReviewNotActive]
      ensures u in old(reviews) && action == StopAction ==>
        reviews == old(reviews) - {u} && db.profiles == old(db.profiles) && db.reports == old(db.reports)
        && notices == old(notices) && replies == [ReviewStopped]
      ensures u in old(reviews) && action == KeepAction ==>
        reviews == old(reviews) && db.profiles == old(db.profiles) && db.reports == old(db.reports)
        && notices == old(notices) && replies == [Crashed]
      ensures u in old(reviews) && action == DeleteAction ==>
        var s := old(reviews)[u];
        var t := s.complaints[s.index - 1].target.userId;
        var step := NextComplaint(s);
        && db.profiles == RemoveProfile(old(db.profiles), t)
        && db.reports == RemoveReportsAgainst(old(db.reports), t)
        && notices == old(notices) + (if delivered then [AccountDeleted(t)] else [])
        && reviews == Put(old(reviews), u, step.0)
        && replies == [ProfileDeleted] + (if delivered then [] else [NotifyFailed]) + [step.1]
    {
      if u !in reviews {
        replies := [ReviewNotActive];
        return;
      }
      if action == StopAction {
        reviews := reviews - {u};
        replies := [ReviewStopped];
        return;
      }
      var state := reviews[u];
      var complaint := state.complaints[state.index - 1];
      var target := complaint.target.userId;
      if action == KeepAction {
        // the delete from the Complaints table fails: that table is never created
        replies := [Crashed];
        return;
      }
      db.profiles := RemoveProfile(db.profiles, target);
      db.reports := RemoveReportsAgainst(db.reports, target);
      replies := [ProfileDeleted];
      if delivered {
        notices := notices + [AccountDeleted(target)];
      } else {
        replies := replies + [NotifyFailed];
      }
      var more := SendNextComplaint(u);
      replies := replies + more;
    }
  }
}
