/** The Likes ledger and the queries the bot runs over it and over UserProfiles.
    Likes has no key, so every INSERT appends a row; UPDATE and DELETE act on
    every row their WHERE clause matches. */
module Ledger {
  import opened Types

  /** get_profile_by_id: the first row of UserProfiles with the given id, if any. */
  function FindProfile(profiles: seq<Profile>, id: UserId): Option<Profile>
  {
    if profiles == [] then None
    else if profiles[0].userId == id then Some(profiles[0])
    else FindProfile(profiles[1..], id)
  }

  /** The lookup finds a row with the id iff there is one, and then the first one. */
  lemma {:induction false} FindProfileSpec(profiles: seq<Profile>, id: UserId)
    ensures FindProfile(profiles, id).Some? ==>
      FindProfile(profiles, id).value in profiles && FindProfile(profiles, id).value.userId == id
    ensures FindProfile(profiles, id).None? <==> forall p :: p in profiles ==> p.userId != id
    ensures FindProfile(profiles, id).Some? ==>
      exists k :: 0 <= k < |profiles| && profiles[k] == FindProfile(profiles, id).value
                  && forall j :: 0 <= j < k ==> profiles[j].userId != id
    decreases |profiles|
  {
    if profiles != [] && profiles[0].userId != id {
      FindProfileSpec(profiles[1..], id);
      var r := FindProfile(profiles[1..], id);
      if r.Some? {
        var k :| 0 <= k < |profiles[1..]| && profiles[1..][k] == r.value
                 && forall j :: 0 <= j < k ==> profiles[1..][j].userId != id;
        assert profiles[k + 1] == r.value;
      }
      forall p | p in profiles && p != profiles[0] ensures p in profiles[1..] {
        var k :| 0 <= k < |profiles| && profiles[k] == p;
        assert profiles[1..][k - 1] == p;
      }
    } else if profiles != [] {
      assert profiles[0] in profiles;
    }
  }

  /** A ledger row connects a and b, in either direction. */
  predicate Links(row: LikeRow, a: UserId, b: UserId) {
    (row.userId == a && row.viewedId == b) || (row.userId == b && row.viewedId == a)
  }

  /** Some reaction exists between a and b, whichever of them made it. */
  ghost predicate Related(l: seq<LikeRow>, a: UserId, b: UserId) {
    exists k :: 0 <= k < |l| && Links(l[k], a, b)
  }

  /** The exclusion set of the selectors:
      `SELECT ViewedId FROM Likes WHERE UserId = u UNION SELECT UserId FROM Likes WHERE ViewedId = u`. */
  function ExcludedIds(l: seq<LikeRow>, u: UserId): (r: set<UserId>)
    ensures forall x :: x in r <==> Related(l, u, x)
  {
    var viewed := set k | 0 <= k < |l| && l[k].userId == u :: l[k].viewedId;
    var viewers := set k | 0 <= k < |l| && l[k].viewedId == u :: l[k].userId;
    assert forall x :: Related(l, u, x) ==> x in viewed + viewers by {
      forall x | Related(l, u, x) ensures x in viewed + viewers {
        var k :| 0 <= k < |l| && Links(l[k], u, x);
        if l[k].userId == u && l[k].viewedId == x {
          assert x in viewed;
        } else {
          assert x in viewers;
        }
      }
    }
    viewed + viewers
  }

  lemma RelatedSymmetric(l: seq<LikeRow>, a: UserId, b: UserId)
    ensures Related(l, a, b) <==> Related(l, b, a)
  {
    if Related(l, a, b) {
      var k :| 0 <= k < |l| && Links(l[k], a, b);
      assert Links(l[k], b, a);
    }
    if Related(l, b, a) {
      var k :| 0 <= k < |l| && Links(l[k], b, a);
      assert Links(l[k], a, b);
    }
  }

  /** Appending a row never removes a relation (reactions are never forgotten). */
  lemma RelatedAppend(l: seq<LikeRow>, row: LikeRow, a: UserId, b: UserId)
    ensures Related(l + [row], a, b) <==> Related(l, a, b) || Links(row, a, b)
  {
    var l' := l + [row];
    if Related(l, a, b) {
      var k :| 0 <= k < |l| && Links(l[k], a, b);
      assert l'[k] == l[k];
    }
    if Links(row, a, b) {
      assert l'[|l|] == row;
    }
    if Related(l', a, b) {
      var k :| 0 <= k < |l'| && Links(l'[k], a, b);
      if k < |l| {
        assert l'[k] == l[k];
      }
    }
  }

  /** `UPDATE Likes SET ViewedByUser = 1 WHERE UserId = liker AND ViewedId = u`. */
  function MarkSeen(l: seq<LikeRow>, liker: UserId, u: UserId): seq<LikeRow>
  {
    seq(|l|, k requires 0 <= k < |l| =>
      if l[k].userId == liker && l[k].viewedId == u then l[k].(viewedByUser := true) else l[k])
  }

  /** The UPDATE keeps every row's pair and state and sets the flag exactly on the rows
      from liker to u. */
  lemma MarkSeenAt(l: seq<LikeRow>, liker: UserId, u: UserId)
    ensures |MarkSeen(l, liker, u)| == |l|
    ensures forall k :: 0 <= k < |l| ==>
      var r := MarkSeen(l, liker, u);
      r[k].userId == l[k].userId && r[k].viewedId == l[k].viewedId && r[k].state == l[k].state
      && r[k].viewedByUser == (l[k].viewedByUser || (l[k].userId == liker && l[k].viewedId == u))
  {
  }

  /** The drain loop of show_likes: one MarkSeen per fetched liker, in order. */
  function MarkSeenAll(l: seq<LikeRow>, likers: seq<UserId>, u: UserId): seq<LikeRow>
    decreases |likers|
  {
    if likers == [] then l
    else MarkSeen(MarkSeenAll(l, likers[..|likers| - 1], u), likers[|likers| - 1], u)
  }

  /** One more iteration of the drain loop. */
  lemma MarkSeenAllStep(l: seq<LikeRow>, likers: seq<UserId>, i: nat, u: UserId)
    requires i < |likers|
    ensures MarkSeenAll(l, likers[..i + 1], u) == MarkSeen(MarkSeenAll(l, likers[..i], u), likers[i], u)
  {
    assert likers[..i + 1][..i] == likers[..i];
  }

  /** After the drain every row keeps its pair and state; a row is flagged as seen
      iff it was already or it goes from one of the drained likers to u. */
  lemma {:induction false} MarkSeenAllAt(l: seq<LikeRow>, likers: seq<UserId>, u: UserId)
    ensures |MarkSeenAll(l, likers, u)| == |l|
    ensures forall k :: 0 <= k < |l| ==>
      var r := MarkSeenAll(l, likers, u);
      r[k].userId == l[k].userId && r[k].viewedId == l[k].viewedId && r[k].state == l[k].state
      && r[k].viewedByUser == (l[k].viewedByUser || (l[k].userId in likers && l[k].viewedId == u))
    decreases |likers|
  {
    if likers != [] {
      var init := likers[..|likers| - 1];
      MarkSeenAllAt(l, init, u);
      MarkSeenAt(MarkSeenAll(l, init, u), likers[|likers| - 1], u);
      assert likers == init + [likers[|likers| - 1]];
      forall x ensures x in likers <==> x in init || x == likers[|likers| - 1] {
        if x in likers {
          var i :| 0 <= i < |likers| && likers[i] == x;
          if i < |likers| - 1 { assert init[i] == x; }
        }
      }
    }
  }

  /** Marking rows as seen never changes which users are related. */
  lemma MarkSeenAllKeepsRelations(l: seq<LikeRow>, likers: seq<UserId>, u: UserId, a: UserId, b: UserId)
    ensures Related(MarkSeenAll(l, likers, u), a, b) <==> Related(l, a, b)
  {
    MarkSeenAllAt(l, likers, u);
    var r := MarkSeenAll(l, likers, u);
    if Related(l, a, b) {
      var k :| 0 <= k < |l| && Links(l[k], a, b);
      assert Links(r[k], a, b);
    }
    if Related(r, a, b) {
      var k :| 0 <= k < |r| && Links(r[k], a, b);
      assert Links(l[k], a, b);
    }
  }

  /** The profiles with the given id, in table order (the join partner of one ledger row). */
  function ProfilesWithId(profiles: seq<Profile>, id: UserId): seq<Profile>
  {
    if profiles == [] then []
    else (if profiles[0].userId == id then [profiles[0]] else []) + ProfilesWithId(profiles[1..], id)
  }

  /** The join partners of a ledger row are exactly the profiles with that row's author id. */
  lemma {:induction false} ProfilesWithIdMembers(profiles: seq<Profile>, id: UserId)
    ensures forall p :: p in ProfilesWithId(profiles, id) <==> p in profiles && p.userId == id
    decreases |profiles|
  {
    if profiles != [] {
      ProfilesWithIdMembers(profiles[1..], id);
      forall p ensures p in profiles <==> p == profiles[0] || p in profiles[1..] {
        if p in profiles && p != profiles[0] {
          var k :| 0 <= k < |profiles| && profiles[k] == p;
          assert profiles[1..][k - 1] == p;
        }
      }
    }
  }

  /** The WHERE clause of the inbox queries, on one ledger row. */
  predicate Inbound(row: LikeRow, u: UserId, s: LikeState, unseenOnly: bool) {
    row.viewedId == u && row.state == s && (unseenOnly ==> !row.viewedByUser)
  }

  /** `Likes l JOIN UserProfiles p ON l.UserId = p.UserId WHERE l.ViewedId = u AND l.State = s`
      (and `AND l.ViewedByUser == 0` when unseenOnly), listed in ledger order. */
  function InboundJoin(l: seq<LikeRow>, profiles: seq<Profile>, u: UserId, s: LikeState, unseenOnly: bool)
    : seq<Profile>
  {
    if l == [] then []
    else
      (if Inbound(l[0], u, s, unseenOnly) then ProfilesWithId(profiles, l[0].userId) else [])
      + InboundJoin(l[1..], profiles, u, s, unseenOnly)
  }

  /** A profile is fetched by an inbox query iff it is in the table and some matching ledger row
      comes from it. */
  lemma {:induction false} InboundJoinMembers(l: seq<LikeRow>, profiles: seq<Profile>, u: UserId, s: LikeState, unseenOnly: bool)
    ensures forall p :: p in InboundJoin(l, profiles, u, s, unseenOnly) <==>
      p in profiles && exists k :: 0 <= k < |l| && Inbound(l[k], u, s, unseenOnly) && l[k].userId == p.userId
  {
    if l != [] {
      var tail := InboundJoin(l[1..], profiles, u, s, unseenOnly);
      InboundJoinMembers(l[1..], profiles, u, s, unseenOnly);
      ProfilesWithIdMembers(profiles, l[0].userId);
      forall p ensures p in tail <==> p in profiles && exists k :: 1 <= k < |l| && Inbound(l[k], u, s, unseenOnly) && l[k].userId == p.userId {
        if p in tail {
          var k :| 0 <= k < |l[1..]| && Inbound(l[1..][k], u, s, unseenOnly) && l[1..][k].userId == p.userId;
          assert l[k + 1] == l[1..][k];
        }
        if p in profiles && exists k :: 1 <= k < |l| && Inbound(l[k], u, s, unseenOnly) && l[k].userId == p.userId {
          var k :| 1 <= k < |l| && Inbound(l[k], u, s, unseenOnly) && l[k].userId == p.userId;
          assert l[1..][k - 1] == l[k];
        }
      }
    }
  }

  /** Two ledgers with the same rows up to the seen flags. */
  ghost predicate SameReactions(a: seq<LikeRow>, b: seq<LikeRow>) {
    |a| == |b| && forall k :: 0 <= k < |a| ==>
      a[k].userId == b[k].userId && a[k].viewedId == b[k].viewedId && a[k].state == b[k].state
  }

  lemma {:induction false} InboundJoinIgnoresSeen(a: seq<LikeRow>, b: seq<LikeRow>, profiles: seq<Profile>, u: UserId, s: LikeState)
    requires SameReactions(a, b)
    ensures InboundJoin(a, profiles, u, s, false) == InboundJoin(b, profiles, u, s, false)
    decreases |a|
  {
    if a != [] {
      assert SameReactions(a[1..], b[1..]);
      InboundJoinIgnoresSeen(a[1..], b[1..], profiles, u, s);
    }
  }

  /** The drain does not change the inbound likes the inbox then lists. */
  lemma DrainKeepsInbox(l: seq<LikeRow>, likers: seq<UserId>, profiles: seq<Profile>, u: UserId)
    ensures InboundJoin(MarkSeenAll(l, likers, u), profiles, u, Like, false) == InboundJoin(l, profiles, u, Like, false)
  {
    MarkSeenAllAt(l, likers, u);
    InboundJoinIgnoresSeen(MarkSeenAll(l, likers, u), l, profiles, u, Like);
  }

  /** The user ids of a list of joined profiles (`liked_user_id` of each fetched row). */
  function UserIds(ps: seq<Profile>): seq<UserId> {
    seq(|ps|, k requires 0 <= k < |ps| => ps[k].userId)
  }

  /** The drain of show_likes leaves no unseen mutual like addressed to u whose author still has a
      profile; rows whose author has no profile are not joined and stay unseen. */
  lemma DrainClearsUnseen(l: seq<LikeRow>, profiles: seq<Profile>, u: UserId)
    ensures var r := MarkSeenAll(l, UserIds(InboundJoin(l, profiles, u, MutualLike, true)), u);
      forall k :: 0 <= k < |r| && r[k].viewedId == u && r[k].state == MutualLike && !r[k].viewedByUser
        ==> FindProfile(profiles, r[k].userId).None?
  {
    var drained := InboundJoin(l, profiles, u, MutualLike, true);
    InboundJoinMembers(l, profiles, u, MutualLike, true);
    var ids := UserIds(drained);
    MarkSeenAllAt(l, ids, u);
    var r := MarkSeenAll(l, ids, u);
    forall k | 0 <= k < |r| && r[k].viewedId == u && r[k].state == MutualLike && FindProfile(profiles, r[k].userId).Some?
      ensures r[k].viewedByUser
    {
      if !l[k].viewedByUser {
        FindProfileSpec(profiles, r[k].userId);
        var p := FindProfile(profiles, r[k].userId).value;
        assert Inbound(l[k], u, MutualLike, true) && l[k].userId == p.userId;
        var i :| 0 <= i < |drained| && drained[i] == p;
        assert ids[i] == l[k].userId;
      }
    }
  }

  /** A row that the reciprocation deletes: a plain like from liker to u. */
  predicate IsLikeFrom(row: LikeRow, liker: UserId, u: UserId) {
    row.userId == liker && row.viewedId == u && row.state == Like
  }

  /** `DELETE FROM Likes WHERE UserId = liker AND ViewedId = u AND State = 'like'`. */
  function DeleteLikes(l: seq<LikeRow>, liker: UserId, u: UserId): (r: seq<LikeRow>)
    ensures forall row :: row in r <==> row in l && !IsLikeFrom(row, liker, u)
    ensures |r| <= |l|
  {
    if l == [] then []
    else if IsLikeFrom(l[0], liker, u) then DeleteLikes(l[1..], liker, u)
    else [l[0]] + DeleteLikes(l[1..], liker, u)
  }

  lemma {:induction false} DeleteLikesAppend(l: seq<LikeRow>, row: LikeRow, liker: UserId, u: UserId)
    requires !IsLikeFrom(row, liker, u)
    ensures DeleteLikes(l + [row], liker, u) == DeleteLikes(l, liker, u) + [row]
  {
    if l == [] {
      assert [] + [row] == [row];
    } else {
      assert (l + [row])[1..] == l[1..] + [row];
      DeleteLikesAppend(l[1..], row, liker, u);
    }
  }

  /** The reciprocation transaction of handle_like_reaction: u answers liker's like. */
  function Reciprocate(l: seq<LikeRow>, u: UserId, liker: UserId): seq<LikeRow> {
    DeleteLikes(l + [LikeRow(u, liker, MutualLike, false)], liker, u)
  }

  /** Reciprocation removes every plain like from liker to u, keeps every other row in order and
      adds exactly one unseen mutual like from u to liker at the end. */
  lemma ReciprocateEffect(l: seq<LikeRow>, u: UserId, liker: UserId)
    ensures Reciprocate(l, u, liker) == DeleteLikes(l, liker, u) + [LikeRow(u, liker, MutualLike, false)]
    ensures forall row :: row in Reciprocate(l, u, liker) ==> !IsLikeFrom(row, liker, u)
  {
    DeleteLikesAppend(l, LikeRow(u, liker, MutualLike, false), liker, u);
  }

  /** Reciprocation only ever relates the pair it is about, and keeps every relation there was. */
  lemma ReciprocateKeepsExclusion(l: seq<LikeRow>, u: UserId, liker: UserId, a: UserId, b: UserId)
    ensures Related(Reciprocate(l, u, liker), a, b) <==> Related(l, a, b) || Links(LikeRow(u, liker, MutualLike, false), a, b)
  {
    var mk := LikeRow(u, liker, MutualLike, false);
    var d := DeleteLikes(l, liker, u);
    ReciprocateEffect(l, u, liker);
    RelatedAppend(d, mk, a, b);
    if Related(l, a, b) && !Links(mk, a, b) {
      var k :| 0 <= k < |l| && Links(l[k], a, b);
      assert !IsLikeFrom(l[k], liker, u);
      assert l[k] in d;
      var j :| 0 <= j < |d| && d[j] == l[k];
    }
    if Related(d, a, b) {
      var j :| 0 <= j < |d| && Links(d[j], a, b);
      assert d[j] in l;
      var k :| 0 <= k < |l| && l[k] == d[j];
    }
  }

  /** The rows of a ledger that connect a and b, in order. */
  function Between(l: seq<LikeRow>, a: UserId, b: UserId): (r: seq<LikeRow>)
    ensures forall row :: row in r <==> row in l && Links(row, a, b)
  {
    if l == [] then []
    else (if Links(l[0], a, b) then [l[0]] else []) + Between(l[1..], a, b)
  }

  lemma {:induction false} BetweenAppend(l: seq<LikeRow>, row: LikeRow, a: UserId, b: UserId)
    ensures Between(l + [row], a, b) == Between(l, a, b) + (if Links(row, a, b) then [row] else [])
  {
    if l == [] {
      assert [] + [row] == [row];
    } else {
      assert (l + [row])[1..] == l[1..] + [row];
      BetweenAppend(l[1..], row, a, b);
    }
  }

  lemma {:induction false} BetweenDelete(l: seq<LikeRow>, liker: UserId, u: UserId)
    requires forall row :: row in l && Links(row, liker, u) ==> IsLikeFrom(row, liker, u)
    ensures Between(DeleteLikes(l, liker, u), liker, u) == []
  {
    if l != [] {
      assert forall row :: row in l[1..] ==> row in l;
      BetweenDelete(l[1..], liker, u);
    }
  }

  /** One like from a to b (a pair with no history), answered by b, leaves exactly one row between
      them: b's unseen mutual like. */
  lemma LikeThenReciprocate(l: seq<LikeRow>, a: UserId, b: UserId)
    requires !Related(l, a, b)
    ensures Between(Reciprocate(l + [LikeRow(a, b, Like, false)], b, a), a, b) == [LikeRow(b, a, MutualLike, false)]
  {
    var liked := l + [LikeRow(a, b, Like, false)];
    var mk := LikeRow(b, a, MutualLike, false);
    ReciprocateEffect(liked, b, a);
    BetweenAppend(DeleteLikes(liked, a, b), mk, a, b);
    forall row | row in liked && Links(row, a, b) ensures IsLikeFrom(row, a, b) {
      assert row !in l by {
        forall k | 0 <= k < |l| ensures !Links(l[k], a, b) { }
      }
    }
    BetweenDelete(liked, a, b);
  }
}
