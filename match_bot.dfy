/** The matchmaking bot's swipe and inbox engine: per-user cursors in the process-wide
    user_states map, the reactions that write the Likes ledger, the report pipeline, and
    the likes inbox. Replies to the acting user are returned; messages the bot sends to
    other users' chats are logged in `notices`. */
module MatchBot {
  import opened Types
  import opened Ledger
  import opened Selection
  import opened Store

  /** One entry of user_states: a swipe cursor `{"profiles", "index", "stop"}` or an inbox
      cursor `{"likes", "index"}`. */
  datatype Session =
    | Swipe(items: seq<Candidate>, index: nat, stop: bool)
    | Inbox(likers: seq<Profile>, index: nat)

  /** The buttons of the swipe keyboard ❤️, 👎 and 💤. */
  datatype SwipeButton = LikeButton | DislikeButton | SleepButton

  /** The buttons of the inbox keyboard: reciprocate, skip, stop. */
  datatype InboxButton = ReciprocateButton | SkipButton | StopButton

  /** What the bot says to the acting user. */
  datatype Reply =
    | NotBrowsing          // the search is not active
    | BrowsingStopped      // you stopped browsing
    | CandidatesExhausted  // no more profiles
    | NoCandidates         // no profiles available
    | ShowCandidate(candidate: Candidate)
    | NotSearching         // a report outside a search
    | AskReason            // write the reason of the report
    | ReportAccepted       // thanks, the report will be reviewed
    | ShowMatch(matched: Profile)   // a mutual like, with the other side's link
    | NoLikes              // you have no likes yet
    | AllLikesShown        // those were all the likes
    | LikesExhausted       // all likes viewed
    | LikesNotActive       // viewing likes is not active
    | LikesStopped         // you stopped viewing likes
    | ShowLiker(liker: Profile)
    | RevealContact(link: Option<string>)
    | Crashed              // the handler raised an exception at this point

  /** A message sent to another user's chat. */
  datatype Notice = ProfileLiked(chat: int) | MatchedBack(chat: int)

  /** A stored cursor always points one past the card on screen and is never stopped. */
  ghost predicate WellFormed(s: Session) {
    match s
    case Swipe(items, i, stop) => 1 <= i <= |items| && !stop
    case Inbox(likers, i) => 1 <= i <= |likers|
  }

  /** One step of send_next_profile on a swipe cursor: the new entry (None: popped) and the reply. */
  function NextCard(s: Session): (Option<Session>, Reply)
    requires s.Swipe?
  {
    if s.stop then (None, BrowsingStopped)
    else if s.index >= |s.items| then (None, CandidatesExhausted)
    else (Some(Swipe(s.items, s.index + 1, s.stop)), ShowCandidate(s.items[s.index]))
  }

  /** One step of send_next_like on an inbox cursor. */
  function NextLike(s: Session): (Option<Session>, Reply)
    requires s.Inbox?
  {
    if s.index >= |s.likers| then (None, LikesExhausted)
    else (Some(Inbox(s.likers, s.index + 1)), ShowLiker(s.likers[s.index]))
  }

  /** Advancing a fresh (index 0, not stopped) or a well-formed swipe cursor either shows
      items[index] and moves the index by exactly one, keeping the items, or pops the entry
      because the stop flag is set or the items are used up. */
  lemma NextCardAdvances(s: Session)
    requires s.Swipe? && 0 <= s.index <= |s.items|
    ensures NextCard(s).0.None? <==> s.stop || s.index == |s.items|
    ensures NextCard(s).0.Some? ==>
      && NextCard(s).0.value == Swipe(s.items, s.index + 1, false)
      && NextCard(s).1 == ShowCandidate(s.items[s.index])
      && WellFormed(NextCard(s).0.value)
  {
  }

  /** The same for the inbox cursor. */
  lemma NextLikeAdvances(s: Session)
    requires s.Inbox? && 0 <= s.index <= |s.likers|
    ensures NextLike(s).0.None? <==> s.index == |s.likers|
    ensures NextLike(s).0.Some? ==>
      && NextLike(s).0.value == Inbox(s.likers, s.index + 1)
      && NextLike(s).1 == ShowLiker(s.likers[s.index])
      && WellFormed(NextLike(s).0.value)
  {
  }

  /** The replies of the drain of show_likes, one per unseen mutual like. */
  function MatchReplies(ps: seq<Profile>): seq<Reply>
  {
    seq(|ps|, k requires 0 <= k < |ps| => ShowMatch(ps[k]))
  }

  class MatchBot {
    const db: Database
    /** The geodesic distance routine. */
    const dist: DistanceFn
    /** user_states. */
    var sessions: map<UserId, Session>
    /** Users whose form state is waiting_for_reason. */
    var awaitingReason: set<UserId>
    /** Messages sent to other users' chats, in order. */
    var notices: seq<Notice>

    ghost predicate Valid()
      reads this
    {
      forall v :: v in sessions ==> WellFormed(sessions[v])
    }

    /** Every other cursor is well-formed; u's swipe cursor may also be fresh (index 0) or stopped. */
    ghost predicate SwipeReady(u: UserId)
      reads this
    {
      && (forall v :: v in sessions && v != u ==> WellFormed(sessions[v]))
      && (u in sessions ==> match sessions[u]
                            case Swipe(items, i, _) => 0 <= i <= |items|
                            case Inbox(_, _) => WellFormed(sessions[u]))
    }

    /** Every other cursor is well-formed; u's inbox cursor may also be fresh (index 0). */
    ghost predicate InboxReady(u: UserId)
      reads this
    {
      && (forall v :: v in sessions && v != u ==> WellFormed(sessions[v]))
      && (u in sessions ==> match sessions[u]
                            case Swipe(_, _, _) => WellFormed(sessions[u])
                            case Inbox(likers, i) => 0 <= i <= |likers|)
    }

    constructor (db: Database, dist: DistanceFn)
      ensures Valid()
      ensures this.db == db && this.dist == dist
      ensures sessions == map[] && awaitingReason == {} && notices == []
    {
      this.db := db;
      this.dist := dist;
      sessions := map[];
      awaitingReason := {};
      notices := [];
    }

    /** send_next_profile. */
    method SendNextProfile(u: UserId) returns (replies: seq<Reply>)
      requires SwipeReady(u)
      modifies this
      ensures Valid()
      ensures awaitingReason == old(awaitingReason) && notices == old(notices)
      ensures u !in old(sessions) ==> sessions == old(sessions) && replies == [BrowsingStopped]
      ensures u in old(sessions) && old(sessions)[u].Inbox? ==>
        sessions == old(sessions) && replies == [Crashed]
      ensures u in old(sessions) && old(sessions)[u].Swipe? ==>
        var step := NextCard(old(sessions)[u]);
        sessions == Put(old(sessions), u, step.0) && replies == [step.1]
    {
      if u !in sessions {
        replies := [BrowsingStopped];
        return;
      }
      var state := sessions[u];
      if state.Inbox? {
        // a likes cursor has no "stop" key
        replies := [Crashed];
        return;
      }
      if state.stop {
        sessions := sessions - {u};
        replies := [BrowsingStopped];
        return;
      }
      if state.index >= |state.items| {
        sessions := sessions - {u};
        replies := [CandidatesExhausted];
        return;
      }
      replies := [ShowCandidate(state.items[state.index])];
      sessions := sessions[u := Swipe(state.items, state.index + 1, state.stop)];
    }

    /** The listing start_profile_sending shows: the nearby profiles, or every profile. */
    ghost function Listing(u: UserId, showDistance: bool): seq<Candidate>
      reads this, db
    {
      if showDistance then NearbySpec(db.profiles, db.likes, u, dist, DefaultMaxDistanceKm)
      else AllSpec(db.profiles, db.likes, u, dist)
    }

    /** The selector call of start_profile_sending. */
    method FetchListing(u: UserId, showDistance: bool) returns (cs: seq<Candidate>)
      ensures cs == Listing(u, showDistance)
    {
      if showDistance {
        cs := GetNearbyProfiles(db.profiles, db.likes, u, dist, DefaultMaxDistanceKm);
      } else {
        cs := GetAllProfiles(db.profiles, db.likes, u, dist);
      }
    }

    /** start_profile_sending: select candidates, store a fresh cursor and show the first card. */
    method StartProfileSending(u: UserId, showDistance: bool) returns (replies: seq<Reply>)
      requires Valid()
      modifies this
      ensures Valid()
      ensures awaitingReason == old(awaitingReason) && notices == old(notices)
      ensures var cs := old(Listing(u, showDistance));
        if cs == [] then sessions == old(sessions) && replies == [NoCandidates]
        else sessions == old(sessions)[u := Swipe(cs, 1, false)] && replies == [ShowCandidate(cs[0])]
    {
      var profiles := FetchListing(u, showDistance);
      if profiles == [] {
        replies := [NoCandidates];
        return;
      }
      ghost var before := sessions;
      sessions := sessions[u := Swipe(profiles, 0, false)];
      assert SwipeReady(u);
      replies := SendNextProfile(u);
      assert NextCard(Swipe(profiles, 0, false)) == (Some(Swipe(profiles, 1, false)), ShowCandidate(profiles[0]));
      assert sessions == before[u := Swipe(profiles, 1, false)];
    }

    /** handle_reaction: the swipe buttons. `delivered` is whether the like notification to the
        target's chat gets through; a failed send raises after the row is committed. */
    method HandleReaction(u: UserId, button: SwipeButton, delivered: bool) returns (replies: seq<Reply>)
      requires Valid()
      modifies this, db
      ensures Valid()
      ensures db.profiles == old(db.profiles) && db.reports == old(db.reports) && db.adminRows == old(db.adminRows)
      ensures awaitingReason == old(awaitingReason)
      ensures u !in old(sessions) ==>
        sessions == old(sessions) && db.likes == old(db.likes) && notices == old(notices)
        && replies == [NotBrowsing]
      ensures u in old(sessions) && button == SleepButton ==>
        sessions == old(sessions) - {u} && db.likes == old(db.likes) && notices == old(notices)
        && replies == [BrowsingStopped]
      ensures u in old(sessions) && button != SleepButton && old(sessions)[u].Inbox? ==>
        sessions == old(sessions) && db.likes == old(db.likes) && notices == old(notices)
        && replies == [Crashed]
      ensures u in old(sessions) && button != SleepButton && old(sessions)[u].Swipe? ==>
        var s := old(sessions)[u];
        var target := s.items[s.index - 1].profile.userId;
        var step := NextCard(s);
        && db.likes == old(db.likes) + [LikeRow(u, target, if button == LikeButton then Like else Dislike, false)]
        && (button == DislikeButton ==>
              notices == old(notices) && sessions == Put(old(sessions), u, step.0) && replies == [step.1])
        && (button == LikeButton ==>
              match FindProfile(old(db.profiles), target)
              case None => notices == old(notices) && sessions == old(sessions) && replies == [Crashed]
              case Some(p) =>
                if delivered then
                  notices == old(notices) + [ProfileLiked(p.chatId)]
                  && sessions == Put(old(sessions), u, step.0) && replies == [step.1]
                else
                  notices == old(notices) && sessions == old(sessions) && replies == [Crashed])
    {
      if u !in sessions {
        replies := [NotBrowsing];
        return;
      }
      var state := sessions[u];
      if button == SleepButton {
        sessions := sessions - {u};
        replies := [BrowsingStopped];
        return;
      }
      if state.index > 0 {
        if state.Inbox? {
          // a likes cursor has no "profiles" key
          replies := [Crashed];
          return;
        }
        var profileId := state.items[state.index - 1].profile.userId;
        var reaction := if button == LikeButton then Like else Dislike;
        db.likes := db.likes + [LikeRow(u, profileId, reaction, false)];
        if button == LikeButton {
          var target := FindProfile(db.profiles, profileId);
          if target.None? {
            // chat_id was never bound
            replies := [Crashed];
            return;
          }
          if !delivered {
            // send_message raised
            replies := [Crashed];
            return;
          }
          notices := notices + [ProfileLiked(target.value.chatId)];
        }
      }
      replies := SendNextProfile(u);
    }

    /** handle_complaint: the report button asks for a reason while a cursor exists. */
    method HandleComplaint(u: UserId) returns (replies: seq<Reply>)
      requires Valid()
      modifies this
      ensures Valid()
      ensures sessions == old(sessions) && notices == old(notices)
      ensures u !in old(sessions) ==> awaitingReason == old(awaitingReason) && replies == [NotSearching]
      ensures u in old(sessions) ==> awaitingReason == old(awaitingReason) + {u} && replies == [AskReason]
    {
      if u !in sessions {
        replies := [NotSearching];
        return;
      }
      replies := [AskReason];
      awaitingReason := awaitingReason + {u};
    }

    /** process_complaint: the reason arrives; report the card on screen, dislike it, resume.
        The reason is `message.text`, None for a message without text. */
    method ProcessComplaint(u: UserId, reason: Option<string>) returns (replies: seq<Reply>)
      requires Valid()
      requires u in awaitingReason
      modifies this, db
      ensures Valid()
      ensures db.profiles == old(db.profiles) && db.adminRows == old(db.adminRows)
      ensures notices == old(notices)
      ensures u !in old(sessions) || old(sessions)[u].Inbox? ==>
        sessions == old(sessions) && awaitingReason == old(awaitingReason)
        && db.likes == old(db.likes) && db.reports == old(db.reports) && replies == [Crashed]
      ensures u in old(sessions) && old(sessions)[u].Swipe? ==>
        var s := old(sessions)[u];
        var target := s.items[s.index - 1].profile.userId;
        var step := NextCard(s);
        && db.reports == old(db.reports) + [Report(u, target, reason)]
        && db.likes == old(db.likes) + [LikeRow(u, target, Dislike, false)]
        && awaitingReason == old(awaitingReason) - {u}
        && sessions == Put(old(sessions), u, step.0)
        && replies == [ReportAccepted, step.1]
    {
      if u !in sessions || sessions[u].Inbox? {
        // user_states has no entry, or it has no "profiles" key
        replies := [Crashed];
        return;
      }
      var state := sessions[u];
      var profileId := state.items[state.index - 1].profile.userId;
      db.reports := db.reports + [Report(u, profileId, reason)];
      db.likes := db.likes + [LikeRow(u, profileId, Dislike, false)];
      replies := [ReportAccepted];
      awaitingReason := awaitingReason - {u};
      var more := SendNextProfile(u);
      replies := replies + more;
    }

    /** send_next_like. */
    method SendNextLike(u: UserId) returns (replies: seq<Reply>)
      requires InboxReady(u)
      modifies this
      ensures Valid()
      ensures awaitingReason == old(awaitingReason) && notices == old(notices)
      ensures u !in old(sessions) ==> sessions == old(sessions) && replies == [LikesExhausted]
      ensures u in old(sessions) && old(sessions)[u].Swipe? ==>
        sessions == old(sessions) && replies == [Crashed]
      ensures u in old(sessions) && old(sessions)[u].Inbox? ==>
        var step := NextLike(old(sessions)[u]);
        sessions == Put(old(sessions), u, step.0) && replies == [step.1]
    {
      if u !in sessions {
        replies := [LikesExhausted];
        return;
      }
      var state := sessions[u];
      if state.Swipe? {
        // a swipe cursor has no "likes" key
        replies := [Crashed];
        return;
      }
      if state.index >= |state.likers| {
        sessions := sessions - {u};
        replies := [LikesExhausted];
        return;
      }
      replies := [ShowLiker(state.likers[state.index])];
      sessions := sessions[u := Inbox(state.likers, state.index + 1)];
    }

    /** The first half of show_likes: fetch the unseen mutual likes addressed to u, show each
        one with its link and flag its rows as seen. */
    method DrainMutualLikes(u: UserId) returns (notViewed: seq<Profile>, replies: seq<Reply>)
      modifies db
      ensures notViewed == InboundJoin(old(db.likes), old(db.profiles), u, MutualLike, true)
      ensures db.likes == MarkSeenAll(old(db.likes), UserIds(notViewed), u)
      ensures replies == MatchReplies(notViewed)
      ensures db.profiles == old(db.profiles) && db.reports == old(db.reports) && db.adminRows == old(db.adminRows)
    {
      notViewed := InboundJoin(db.likes, db.profiles, u, MutualLike, true);
      ghost var likers := UserIds(notViewed);
      replies := [];
      var i := 0;
      while i < |notViewed|
        invariant 0 <= i <= |notViewed|
        invariant db.likes == MarkSeenAll(old(db.likes), likers[..i], u)
        invariant |replies| == i && forall k :: 0 <= k < i ==> replies[k] == ShowMatch(notViewed[k])
        invariant db.profiles == old(db.profiles) && db.reports == old(db.reports) && db.adminRows == old(db.adminRows)
      {
        var like := notViewed[i];
        replies := replies + [ShowMatch(like)];
        MarkSeenAllStep(old(db.likes), likers, i, u);
        db.likes := MarkSeen(db.likes, like.userId, u);
        i := i + 1;
      }
      assert likers[..|notViewed|] == likers;
      assert notViewed[..|notViewed|] == notViewed;
    }

    /** show_likes: drain the unseen mutual likes, then open a cursor over the inbound likes. */
    method ShowLikes(u: UserId) returns (replies: seq<Reply>)
      requires Valid()
      modifies this, db
      ensures Valid()
      ensures db.profiles == old(db.profiles) && db.reports == old(db.reports) && db.adminRows == old(db.adminRows)
      ensures awaitingReason == old(awaitingReason) && notices == old(notices)
      ensures var drained := InboundJoin(old(db.likes), old(db.profiles), u, MutualLike, true);
        var inbound := InboundJoin(old(db.likes), old(db.profiles), u, Like, false);
        && db.likes == MarkSeenAll(old(db.likes), UserIds(drained), u)
        && (inbound == [] ==>
              sessions == old(sessions)
              && replies == MatchReplies(drained) + [if drained == [] then NoLikes else AllLikesShown])
        && (inbound != [] ==>
              sessions == old(sessions)[u := Inbox(inbound, 1)]
              && replies == MatchReplies(drained) + [ShowLiker(inbound[0])])
    {
      var notViewed;
      notViewed, replies := DrainMutualLikes(u);
      DrainKeepsInbox(old(db.likes), UserIds(notViewed), db.profiles, u);
      var likes := InboundJoin(db.likes, db.profiles, u, Like, false);
      if likes == [] && notViewed == [] {
        replies := replies + [NoLikes];
        return;
      } else if likes == [] {
        replies := replies + [AllLikesShown];
        return;
      }
      sessions := sessions[u := Inbox(likes, 0)];
      var more := SendNextLike(u);
      replies := replies + more;
    }

    /** handle_like_reaction: the inbox buttons. `delivered` is whether the mutual-like
        notification to the liker's chat gets through; a failed send raises before the link is
        revealed and before any write. */
    method HandleLikeReaction(u: UserId, button: InboxButton, delivered: bool) returns (replies: seq<Reply>)
      requires Valid()
      modifies this, db
      ensures Valid()
      ensures db.profiles == old(db.profiles) && db.reports == old(db.reports) && db.adminRows == old(db.adminRows)
      ensures awaitingReason == old(awaitingReason)
      ensures u !in old(sessions) ==>
        sessions == old(sessions) && db.likes == old(db.likes) && notices == old(notices)
        && replies == [LikesNotActive]
      ensures u in old(sessions) && button == StopButton ==>
        sessions == old(sessions) - {u} && db.likes == old(db.likes) && notices == old(notices)
        && replies == [LikesStopped]
      ensures u in old(sessions) && button != StopButton && old(sessions)[u].Swipe? ==>
        sessions == old(sessions) && db.likes == old(db.likes) && notices == old(notices)
        && replies == [Crashed]
      ensures u in old(sessions) && button == SkipButton && old(sessions)[u].Inbox? ==>
        var step := NextLike(old(sessions)[u]);
        db.likes == old(db.likes) && notices == old(notices)
        && sessions == Put(old(sessions), u, step.0) && replies == [step.1]
      ensures u in old(sessions) && button == ReciprocateButton && old(sessions)[u].Inbox? ==>
        var s := old(sessions)[u];
        var liker := s.likers[s.index - 1].userId;
        var step := NextLike(s);
        match FindProfile(old(db.profiles), liker)
        case None =>
          sessions == old(sessions) && db.likes == old(db.likes) && notices == old(notices)
          && replies == [Crashed]
        case Some(p) =>
          if delivered then
            && notices == old(notices) + [MatchedBack(p.chatId)]
            && db.likes == Reciprocate(old(db.likes), u, liker)
            && sessions == Put(old(sessions), u, step.0)
            && replies == [RevealContact(p.link), step.1]
          else
            sessions == old(sessions) && db.likes == old(db.likes) && notices == old(notices)
            && replies == [Crashed]
    {
      if u !in sessions {
        replies := [LikesNotActive];
        return;
      }
      if button == StopButton {
        sessions := sessions - {u};
        replies := [LikesStopped];
        return;
      }
      var state := sessions[u];
      if state.Swipe? {
        // a swipe cursor has no "likes" key
        replies := [Crashed];
        return;
      }
      var likedUserId := state.likers[state.index - 1].userId;
      replies := [];
      if button == ReciprocateButton {
        var likedUserInfo := FindProfile(db.profiles, likedUserId);
        if likedUserInfo.None? {
          // liked_user_username was never bound
          replies := [Crashed];
          return;
        }
        if !delivered {
          // send_message raised
          replies := [Crashed];
          return;
        }
        notices := notices + [MatchedBack(likedUserInfo.value.chatId)];
        replies := [RevealContact(likedUserInfo.value.link)];
        db.likes := db.likes + [LikeRow(u, likedUserId, MutualLike, false)];
        db.likes := DeleteLikes(db.likes, likedUserId, u);
      }
      var more := SendNextLike(u);
      replies := replies + more;
    }
  }
}
