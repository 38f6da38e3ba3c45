/** Candidate selection: get_nearby_profiles and get_all_profiles.
    Both load the requester, build the exclusion set from Likes, scan the other
    profiles and keep those that are not excluded and have a location; the
    nearby mode further keeps those within the radius and sorts them by distance. */
module Selection {
  import opened Types
  import opened Ledger

  /** The default radius of get_nearby_profiles, in kilometres. */
  const DefaultMaxDistanceKm: real := 100.0

  /** `SELECT * FROM UserProfiles WHERE UserId != u`, in table order. */
  function OtherProfiles(profiles: seq<Profile>, u: UserId): (r: seq<Profile>)
    ensures forall p :: p in r <==> p in profiles && p.userId != u
    decreases |profiles|
  {
    if profiles == [] then []
    else
      var init := profiles[..|profiles| - 1];
      var last := profiles[|profiles| - 1];
      assert profiles == init + [last];
      OtherProfiles(init, u) + (if last.userId != u then [last] else [])
  }

  /** The test the selector loops apply to each scanned profile. */
  predicate Eligible(p: Profile, excluded: set<UserId>) {
    p.userId !in excluded && Located(p)
  }

  /** What one scanned profile contributes to the all-mode list. */
  function ScanItem(p: Profile, excluded: set<UserId>, from: LatLon, dist: DistanceFn): seq<Candidate> {
    if Eligible(p, excluded) then [Candidate(p, dist(from, Position(p)))] else []
  }

  /** The list the all-mode loop accumulates over the scanned profiles `ps`. */
  function Scan(ps: seq<Profile>, excluded: set<UserId>, from: LatLon, dist: DistanceFn): seq<Candidate>
    decreases |ps|
  {
    if ps == [] then []
    else
      var init := ps[..|ps| - 1];
      assert ps == init + [ps[|ps| - 1]];
      Scan(init, excluded, from, dist) + ScanItem(ps[|ps| - 1], excluded, from, dist)
  }

  /** A candidate is in the all-mode list iff its profile was scanned, is eligible, and its
      distance is the requester's distance to it. */
  lemma {:induction false} ScanMembers(ps: seq<Profile>, excluded: set<UserId>, from: LatLon, dist: DistanceFn)
    ensures forall c :: c in Scan(ps, excluded, from, dist) <==>
      c.profile in ps && Eligible(c.profile, excluded) && c.distance == dist(from, Position(c.profile))
    decreases |ps|
  {
    if ps != [] {
      var init := ps[..|ps| - 1];
      assert ps == init + [ps[|ps| - 1]];
      ScanMembers(init, excluded, from, dist);
    }
  }

  lemma ScanAppend(ps: seq<Profile>, p: Profile, excluded: set<UserId>, from: LatLon, dist: DistanceFn)
    ensures Scan(ps + [p], excluded, from, dist) == Scan(ps, excluded, from, dist) + ScanItem(p, excluded, from, dist)
  {
    assert (ps + [p])[..|ps + [p]| - 1] == ps;
  }

  /** The candidates at most maxKm away, in their order. */
  function WithinRadius(cs: seq<Candidate>, maxKm: real): seq<Candidate>
    decreases |cs|
  {
    if cs == [] then []
    else
      var init := cs[..|cs| - 1];
      var last := cs[|cs| - 1];
      assert cs == init + [last];
      WithinRadius(init, maxKm) + (if last.distance <= maxKm then [last] else [])
  }

  lemma {:induction false} WithinRadiusMembers(cs: seq<Candidate>, maxKm: real)
    ensures forall c :: c in WithinRadius(cs, maxKm) <==> c in cs && c.distance <= maxKm
    decreases |cs|
  {
    if cs != [] {
      var init := cs[..|cs| - 1];
      assert cs == init + [cs[|cs| - 1]];
      WithinRadiusMembers(init, maxKm);
    }
  }

  lemma WithinRadiusAppend(cs: seq<Candidate>, more: seq<Candidate>, maxKm: real)
    requires |more| <= 1
    ensures WithinRadius(cs + more, maxKm) == WithinRadius(cs, maxKm) + WithinRadius(more, maxKm)
  {
    if |more| == 1 {
      assert (cs + more)[..|cs + more| - 1] == cs;
      assert more[..0] == [];
    } else {
      assert cs + more == cs;
    }
  }

  /** What one scanned profile contributes to the nearby list. */
  function NearbyItem(p: Profile, excluded: set<UserId>, from: LatLon, dist: DistanceFn, maxKm: real): seq<Candidate> {
    if Eligible(p, excluded) && dist(from, Position(p)) <= maxKm then [Candidate(p, dist(from, Position(p)))] else []
  }

  /** One step of the nearby loop: the list grows by the scanned profile exactly when the
      profile is eligible and within the radius. */
  lemma NearbyStep(ps: seq<Profile>, p: Profile, excluded: set<UserId>, from: LatLon, dist: DistanceFn, maxKm: real)
    ensures WithinRadius(Scan(ps + [p], excluded, from, dist), maxKm)
         == WithinRadius(Scan(ps, excluded, from, dist), maxKm) + NearbyItem(p, excluded, from, dist, maxKm)
  {
    ScanAppend(ps, p, excluded, from, dist);
    WithinRadiusAppend(Scan(ps, excluded, from, dist), ScanItem(p, excluded, from, dist), maxKm);
  }

  /** Insert c before the first element that is not nearer than c. */
  function Insert(c: Candidate, s: seq<Candidate>): seq<Candidate> {
    if s == [] || c.distance <= s[0].distance then [c] + s
    else [s[0]] + Insert(c, s[1..])
  }

  /** `sorted(cs, key=lambda x: x[1])`: a stable sort by distance (insertion sort). */
  function SortByDistance(cs: seq<Candidate>): seq<Candidate> {
    if cs == [] then [] else Insert(cs[0], SortByDistance(cs[1..]))
  }

  /** The nearest candidates come first. */
  ghost predicate SortedByDistance(s: seq<Candidate>) {
    forall i, j :: 0 <= i < j < |s| ==> s[i].distance <= s[j].distance
  }

  /** The candidates of s at exactly distance d, in their order. */
  function AtDistance(s: seq<Candidate>, d: real): seq<Candidate> {
    if s == [] then []
    else (if s[0].distance == d then [s[0]] else []) + AtDistance(s[1..], d)
  }

  /** Insertion adds exactly the inserted candidate. */
  lemma {:induction false} InsertMembers(c: Candidate, s: seq<Candidate>)
    ensures multiset(Insert(c, s)) == multiset{c} + multiset(s)
    ensures forall x :: x in Insert(c, s) ==> x == c || x in s
  {
    if s != [] && c.distance > s[0].distance {
      InsertMembers(c, s[1..]);
      assert s == [s[0]] + s[1..];
    }
  }

  /** A sorted list's head is no farther than anything in its tail, and its tail is sorted. */
  lemma SortedSplit(s: seq<Candidate>)
    requires s != [] && SortedByDistance(s)
    ensures SortedByDistance(s[1..])
    ensures forall x :: x in s[1..] ==> s[0].distance <= x.distance
  {
    forall x | x in s[1..] ensures s[0].distance <= x.distance {
      var k :| 0 <= k < |s[1..]| && s[1..][k] == x;
      assert s[k + 1] == x;
    }
  }

  /** A head no farther than anything in a sorted tail gives a sorted list. */
  lemma SortedCons(h: Candidate, t: seq<Candidate>)
    requires SortedByDistance(t)
    requires forall x :: x in t ==> h.distance <= x.distance
    ensures SortedByDistance([h] + t)
  {
    var r := [h] + t;
    forall i, j | 0 <= i < j < |r| ensures r[i].distance <= r[j].distance {
      assert r[j] == t[j - 1];
      if i > 0 {
        assert r[i] == t[i - 1];
      }
    }
  }

  /** Insertion into a sorted list keeps it sorted. */
  lemma {:induction false} InsertFacts(c: Candidate, s: seq<Candidate>)
    ensures SortedByDistance(s) ==> SortedByDistance(Insert(c, s))
  {
    if SortedByDistance(s) {
      if s == [] || c.distance <= s[0].distance {
        SortedCons(c, s);
      } else {
        SortedSplit(s);
        InsertFacts(c, s[1..]);
        InsertMembers(c, s[1..]);
        SortedCons(s[0], Insert(c, s[1..]));
      }
    }
  }

  lemma {:induction false} InsertAtDistance(c: Candidate, s: seq<Candidate>, d: real)
    ensures AtDistance(Insert(c, s), d) == (if c.distance == d then [c] else []) + AtDistance(s, d)
  {
    if s == [] || c.distance <= s[0].distance {
      assert Insert(c, s)[1..] == s;
    } else {
      InsertAtDistance(c, s[1..], d);
      assert Insert(c, s)[1..] == Insert(c, s[1..]);
    }
  }

  /** The sort orders by distance, is a permutation, and is stable: the candidates at any one
      distance keep their relative order. */
  lemma {:induction false} SortByDistanceCorrect(cs: seq<Candidate>)
    ensures SortedByDistance(SortByDistance(cs))
    ensures multiset(SortByDistance(cs)) == multiset(cs)
    ensures forall d :: AtDistance(SortByDistance(cs), d) == AtDistance(cs, d)
  {
    if cs != [] {
      SortByDistanceCorrect(cs[1..]);
      InsertFacts(cs[0], SortByDistance(cs[1..]));
      InsertMembers(cs[0], SortByDistance(cs[1..]));
      assert cs == [cs[0]] + cs[1..];
      forall d ensures AtDistance(SortByDistance(cs), d) == AtDistance(cs, d) {
        InsertAtDistance(cs[0], SortByDistance(cs[1..]), d);
      }
    }
  }

  /** get_all_profiles as a function of the two tables: empty unless the requester has a profile
      with a location; otherwise the eligible other profiles in scan order, with their distance. */
  function AllSpec(profiles: seq<Profile>, likes: seq<LikeRow>, u: UserId, dist: DistanceFn): seq<Candidate> {
    match FindProfile(profiles, u)
    case None => []
    case Some(me) =>
      if Located(me) then Scan(OtherProfiles(profiles, u), ExcludedIds(likes, u), Position(me), dist)
      else []
  }

  /** get_nearby_profiles as a function of the two tables: the all-mode candidates within the
      radius, stably sorted by distance. */
  function NearbySpec(profiles: seq<Profile>, likes: seq<LikeRow>, u: UserId, dist: DistanceFn, maxKm: real)
    : seq<Candidate>
  {
    SortByDistance(WithinRadius(AllSpec(profiles, likes, u, dist), maxKm))
  }

  /** The nearby list after the first n scanned profiles. This is
      `WithinRadius(Scan(others[..n], ...), maxKm)` (NearbyUpToScan), indexed by n instead of a
      slice so that the loop invariant of CollectNearby stays cheap to prove; it is not a second
      definition of the selector. */
  function NearbyUpTo(others: seq<Profile>, n: nat, excluded: set<UserId>, from: LatLon, dist: DistanceFn, maxKm: real): seq<Candidate>
    requires n <= |others|
  {
    if n == 0 then [] else NearbyUpTo(others, n - 1, excluded, from, dist, maxKm) + NearbyItem(others[n - 1], excluded, from, dist, maxKm)
  }

  /** The nearby list after n profiles is the radius filter of the first n profiles' scan. */
  lemma {:induction false} NearbyUpToScan(others: seq<Profile>, n: nat, excluded: set<UserId>, from: LatLon, dist: DistanceFn, maxKm: real)
    requires n <= |others|
    ensures NearbyUpTo(others, n, excluded, from, dist, maxKm) == WithinRadius(Scan(others[..n], excluded, from, dist), maxKm)
  {
    if n > 0 {
      NearbyUpToScan(others, n - 1, excluded, from, dist, maxKm);
      NearbyStepAt(others, n, excluded, from, dist, maxKm);
    }
  }

  /** The nearby list after every profile is the radius filter of the whole scan. */
  lemma NearbyUpToAll(others: seq<Profile>, excluded: set<UserId>, from: LatLon, dist: DistanceFn, maxKm: real)
    ensures NearbyUpTo(others, |others|, excluded, from, dist, maxKm) == WithinRadius(Scan(others, excluded, from, dist), maxKm)
  {
    NearbyUpToScan(others, |others|, excluded, from, dist, maxKm);
    assert others[..|others|] == others;
  }

  lemma NearbyStepAt(others: seq<Profile>, n: nat, excluded: set<UserId>, from: LatLon, dist: DistanceFn, maxKm: real)
    requires 0 < n <= |others|
    ensures WithinRadius(Scan(others[..n], excluded, from, dist), maxKm)
         == WithinRadius(Scan(others[..n - 1], excluded, from, dist), maxKm) + NearbyItem(others[n - 1], excluded, from, dist, maxKm)
  {
    assert others[..n] == others[..n - 1] + [others[n - 1]];
    NearbyStep(others[..n - 1], others[n - 1], excluded, from, dist, maxKm);
  }

  /** The loop of get_nearby_profiles over the scanned profiles: keep each eligible profile whose
      distance from the requester is at most maxKm, in scan order. */
  method CollectNearby(others: seq<Profile>, excluded: set<UserId>, from: LatLon, dist: DistanceFn, maxKm: real)
    returns (nearby: seq<Candidate>)
    ensures nearby == WithinRadius(Scan(others, excluded, from, dist), maxKm)
  {
    nearby := [];
    var i := 0;
    while i < |others|
      invariant 0 <= i <= |others|
      invariant nearby == NearbyUpTo(others, i, excluded, from, dist, maxKm)
    {
      var profile := others[i];
      if profile.userId !in excluded && Truthy(profile.latitude) && Truthy(profile.longitude) {
        var distance := dist(from, Position(profile));
        if distance <= maxKm {
          nearby := nearby + [Candidate(profile, distance)];
        }
      }
      i := i + 1;
    }
    NearbyUpToAll(others, excluded, from, dist, maxKm);
  }

  /** get_nearby_profiles: load the requester, build the exclusion set, scan, then sort. */
  method GetNearbyProfiles(profiles: seq<Profile>, likes: seq<LikeRow>, u: UserId, dist: DistanceFn, maxKm: real)
    returns (r: seq<Candidate>)
    ensures r == NearbySpec(profiles, likes, u, dist, maxKm)
  {
    var user := FindProfile(profiles, u);
    if user.Some? && Truthy(user.value.latitude) && Truthy(user.value.longitude) {
      var excluded := ExcludedIds(likes, u);
      var nearby := CollectNearby(OtherProfiles(profiles, u), excluded, Position(user.value), dist, maxKm);
      r := SortByDistance(nearby);
    } else {
      r := [];
    }
  }

  /** The all-mode list after the first n scanned profiles. This is `Scan(others[..n], ...)`
      (ScanUpToScan), indexed by n for the loop invariant of CollectAll. */
  function ScanUpTo(others: seq<Profile>, n: nat, excluded: set<UserId>, from: LatLon, dist: DistanceFn): seq<Candidate>
    requires n <= |others|
  {
    if n == 0 then [] else ScanUpTo(others, n - 1, excluded, from, dist) + ScanItem(others[n - 1], excluded, from, dist)
  }

  /** The all-mode list after n profiles is the scan of the first n profiles. */
  lemma {:induction false} ScanUpToScan(others: seq<Profile>, n: nat, excluded: set<UserId>, from: LatLon, dist: DistanceFn)
    requires n <= |others|
    ensures ScanUpTo(others, n, excluded, from, dist) == Scan(others[..n], excluded, from, dist)
  {
    if n > 0 {
      ScanUpToScan(others, n - 1, excluded, from, dist);
      assert others[..n] == others[..n - 1] + [others[n - 1]];
      ScanAppend(others[..n - 1], others[n - 1], excluded, from, dist);
    }
  }

  /** The loop of get_all_profiles: every eligible scanned profile with its distance, in scan order. */
  method CollectAll(others: seq<Profile>, excluded: set<UserId>, from: LatLon, dist: DistanceFn)
    returns (all: seq<Candidate>)
    ensures all == Scan(others, excluded, from, dist)
  {
    all := [];
    var i := 0;
    while i < |others|
      invariant 0 <= i <= |others|
      invariant all == ScanUpTo(others, i, excluded, from, dist)
    {
      var profile := others[i];
      if profile.userId !in excluded && Truthy(profile.latitude) && Truthy(profile.longitude) {
        var distance := dist(from, Position(profile));
        all := all + [Candidate(profile, distance)];
      }
      i := i + 1;
    }
    ScanUpToScan(others, |others|, excluded, from, dist);
    assert others[..|others|] == others;
  }

  /** get_all_profiles (the definition at bot.py:573, which shadows the one at bot.py:105). */
  method GetAllProfiles(profiles: seq<Profile>, likes: seq<LikeRow>, u: UserId, dist: DistanceFn)
    returns (r: seq<Candidate>)
    ensures r == AllSpec(profiles, likes, u, dist)
  {
    var user := FindProfile(profiles, u);
    if user.Some? && Truthy(user.value.latitude) && Truthy(user.value.longitude) {
      var from := Position(user.value);
      var excluded := ExcludedIds(likes, u);
      var others := OtherProfiles(profiles, u);
      r := CollectAll(others, excluded, from, dist);
    } else {
      r := [];
    }
  }

  /** What both selectors require of a returned profile. */
  ghost predicate Admissible(c: Candidate, profiles: seq<Profile>, likes: seq<LikeRow>, u: UserId, dist: DistanceFn) {
    && c.profile in profiles
    && c.profile.userId != u
    && !Related(likes, u, c.profile.userId)
    && Located(c.profile)
    && exists me :: FindProfile(profiles, u) == Some(me) && Located(me)
                    && c.distance == dist(Position(me), Position(c.profile))
  }

  /** A requester without a profile, or without both coordinates, gets no candidates in either mode. */
  lemma NoLocationNoCandidates(profiles: seq<Profile>, likes: seq<LikeRow>, u: UserId, dist: DistanceFn, maxKm: real)
    requires FindProfile(profiles, u).None? || !Located(FindProfile(profiles, u).value)
    ensures AllSpec(profiles, likes, u, dist) == []
    ensures NearbySpec(profiles, likes, u, dist, maxKm) == []
  {
  }

  /** All mode returns exactly the admissible candidates: never the requester, never anyone the
      requester reacted to or who reacted to the requester, never a profile without location. */
  lemma AllSpecExact(profiles: seq<Profile>, likes: seq<LikeRow>, u: UserId, dist: DistanceFn, c: Candidate)
    ensures c in AllSpec(profiles, likes, u, dist) <==> Admissible(c, profiles, likes, u, dist)
  {
    if me :| FindProfile(profiles, u) == Some(me) && Located(me) {
      ScanMembers(OtherProfiles(profiles, u), ExcludedIds(likes, u), Position(me), dist);
    }
  }

  /** Nearby mode returns exactly the admissible candidates within the radius, nearest first,
      and the candidates at any one distance in scan order. */
  lemma NearbySpecExact(profiles: seq<Profile>, likes: seq<LikeRow>, u: UserId, dist: DistanceFn, maxKm: real)
    ensures forall c :: c in NearbySpec(profiles, likes, u, dist, maxKm) <==>
      Admissible(c, profiles, likes, u, dist) && c.distance <= maxKm
    ensures SortedByDistance(NearbySpec(profiles, likes, u, dist, maxKm))
    ensures forall d :: AtDistance(NearbySpec(profiles, likes, u, dist, maxKm), d)
                     == AtDistance(WithinRadius(AllSpec(profiles, likes, u, dist), maxKm), d)
  {
    var within := WithinRadius(AllSpec(profiles, likes, u, dist), maxKm);
    SortByDistanceCorrect(within);
    WithinRadiusMembers(AllSpec(profiles, likes, u, dist), maxKm);
    forall c ensures c in SortByDistance(within) <==> Admissible(c, profiles, likes, u, dist) && c.distance <= maxKm {
      assert c in multiset(SortByDistance(within)) <==> c in multiset(within);
      AllSpecExact(profiles, likes, u, dist, c);
    }
  }

  /** The profiles of a candidate list, in order. */
  function Profiles(cs: seq<Candidate>): (r: seq<Profile>)
    ensures |r| == |cs|
    ensures forall k :: 0 <= k < |cs| ==> r[k] == cs[k].profile
  {
    if cs == [] then [] else [cs[0].profile] + Profiles(cs[1..])
  }

  /** The profiles of the table that either selector may offer to u, in table order. */
  function Offerable(profiles: seq<Profile>, u: UserId, excluded: set<UserId>): seq<Profile>
    decreases |profiles|
  {
    if profiles == [] then []
    else
      var init := profiles[..|profiles| - 1];
      var last := profiles[|profiles| - 1];
      Offerable(init, u, excluded) + (if last.userId != u && Eligible(last, excluded) then [last] else [])
  }

  lemma ProfilesAppend(a: seq<Candidate>, b: seq<Candidate>)
    ensures Profiles(a + b) == Profiles(a) + Profiles(b)
  {
  }

  lemma {:induction false} ScanOtherIsOfferable(ps: seq<Profile>, u: UserId, excluded: set<UserId>, from: LatLon, dist: DistanceFn)
    ensures Profiles(Scan(OtherProfiles(ps, u), excluded, from, dist)) == Offerable(ps, u, excluded)
    decreases |ps|
  {
    if ps != [] {
      var init := ps[..|ps| - 1];
      var last := ps[|ps| - 1];
      ScanOtherIsOfferable(init, u, excluded, from, dist);
      var o := OtherProfiles(init, u);
      if last.userId != u {
        assert OtherProfiles(ps, u) == o + [last];
        assert (o + [last])[..|o + [last]| - 1] == o;
        ProfilesAppend(Scan(o, excluded, from, dist), ScanItem(last, excluded, from, dist));
      } else {
        assert OtherProfiles(ps, u) == o;
      }
    }
  }

  /** All mode applies no distance filter and keeps the scan order of the table. */
  lemma AllKeepsScanOrder(profiles: seq<Profile>, likes: seq<LikeRow>, u: UserId, dist: DistanceFn, me: Profile)
    requires FindProfile(profiles, u) == Some(me) && Located(me)
    ensures Profiles(AllSpec(profiles, likes, u, dist)) == Offerable(profiles, u, ExcludedIds(likes, u))
  {
    ScanOtherIsOfferable(profiles, u, ExcludedIds(likes, u), Position(me), dist);
  }

  /** Once any reaction exists between a and b, neither selector offers b to a or a to b. */
  lemma ReactionsAreFinal(profiles: seq<Profile>, likes: seq<LikeRow>, a: UserId, b: UserId, dist: DistanceFn, maxKm: real)
    requires Related(likes, a, b)
    ensures forall c :: c in AllSpec(profiles, likes, a, dist) ==> c.profile.userId != b
    ensures forall c :: c in AllSpec(profiles, likes, b, dist) ==> c.profile.userId != a
    ensures forall c :: c in NearbySpec(profiles, likes, a, dist, maxKm) ==> c.profile.userId != b
    ensures forall c :: c in NearbySpec(profiles, likes, b, dist, maxKm) ==> c.profile.userId != a
  {
    RelatedSymmetric(likes, a, b);
    NearbySpecExact(profiles, likes, a, dist, maxKm);
    NearbySpecExact(profiles, likes, b, dist, maxKm);
    forall c | c in AllSpec(profiles, likes, a, dist) ensures c.profile.userId != b {
      AllSpecExact(profiles, likes, a, dist, c);
    }
    forall c | c in AllSpec(profiles, likes, b, dist) ensures c.profile.userId != a {
      AllSpecExact(profiles, likes, b, dist, c);
    }
  }
}
