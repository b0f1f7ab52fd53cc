/**
  The rewards page: badge progress as the badge cards show it, and theme
  redemption with its cost table.
*/
module Rewards {
  import opened Text
  import opened Tasks
  import opened Handlers

  // ---------------------------------------------------------------------
  // Badges

  datatype BadgeInfo = BadgeInfo(name: string, goal: nat)

  /** The badge cards, in display order. */
  const AvailableBadges: seq<BadgeInfo> := [
    BadgeInfo(PriorityMaster, 5),
    BadgeInfo(TaskTitan, 10),
    BadgeInfo(EarlyBird, 3),
    BadgeInfo(StreakStar, 7)
  ]

  /**
    An early task as the badge card counts it: completed and with its
    completion date before its due date in string order. A missing completion
    date compares as false.
  */
  predicate IsEarlyShown(t: Task)
  {
    t.completed && t.completedDate.Some? && LexLess(t.completedDate.value, t.dueDate)
  }

  /** `badgeProgress[name]` for the four card names (0 for any other name). */
  function Progress(name: string, ts: seq<Task>, streak: nat): nat
  {
    if name == PriorityMaster then Count(ts, IsCompletedHigh)
    else if name == TaskTitan then Count(ts, IsCompleted)
    else if name == EarlyBird then Count(ts, IsEarlyShown)
    else if name == StreakStar then streak
    else 0
  }

  /** The figure shown as remaining: the goal minus the progress, never below 0. */
  function Remaining(goal: nat, progress: nat): (r: nat)
    ensures r == (if goal > progress then goal - progress else 0)
    ensures r == 0 <==> progress >= goal
  {
    var rem := goal - progress;
    if rem > 0 then rem else 0
  }

  /** The line under an unearned card; None for an earned one. */
  function RemainingLine(b: BadgeInfo, ts: seq<Task>, streak: nat, badges: seq<string>): (r: Option<string>)
    ensures r.None? <==> b.name in badges
  {
    if b.name in badges then None
    else
      var rem := NatToString(Remaining(b.goal, Progress(b.name, ts, streak)));
      if b.name == StreakStar then Some("Days remaining: " + rem) else Some("Tasks remaining: " + rem)
  }

  /** A card shows as earned iff the badge is held, whatever the progress. */
  predicate IsEarned(b: BadgeInfo, badges: seq<string>)
  {
    b.name in badges
  }

  /**
    The line under an unearned card: "Days remaining: " for the Streak Star,
    "Tasks remaining: " for the others, then a figure that is "0" exactly
    when the progress has reached the goal.
  */
  lemma RemainingLineRule(b: BadgeInfo, ts: seq<Task>, streak: nat, badges: seq<string>)
    requires b.name !in badges
    ensures var line := RemainingLine(b, ts, streak, badges);
      var lead := if b.name == StreakStar then "Days remaining: " else "Tasks remaining: ";
      line.Some? && |lead| <= |line.value| && line.value[..|lead|] == lead &&
      (line.value[|lead|..] == "0" <==> Progress(b.name, ts, streak) >= b.goal)
  {
    var lead := if b.name == StreakStar then "Days remaining: " else "Tasks remaining: ";
    var rem := Remaining(b.goal, Progress(b.name, ts, streak));
    var figure := NatToString(rem);
    assert RemainingLine(b, ts, streak, badges) == Some(lead + figure);
    assert (lead + figure)[..|lead|] == lead;
    assert (lead + figure)[|lead|..] == figure;
    ZeroRendering(rem);
  }

  /** A number renders as "0" exactly when it is 0. */
  lemma ZeroRendering(n: nat)
    ensures NatToString(n) == "0" <==> n == 0
  {
    if NatToString(n) == "0" {
      assert NatToString(n)[0] == '0';
    }
  }

  /** The card goals are the award thresholds: 5, 10, 3 and 7. */
  lemma GoalsAreThresholds(held: seq<string>, ts: seq<Task>, p: Profile)
    ensures AvailableBadges[0].name == PriorityMaster && AvailableBadges[1].name == TaskTitan
    ensures AvailableBadges[2].name == EarlyBird && AvailableBadges[3].name == StreakStar
    ensures var b := AwardBadges(held, ts);
      (PriorityMaster in b <==> PriorityMaster in held || Progress(PriorityMaster, ts, 0) >= AvailableBadges[0].goal) &&
      (TaskTitan in b <==> TaskTitan in held || Progress(TaskTitan, ts, 0) >= AvailableBadges[1].goal)
    ensures (StreakStar in AwardStreakStar(p).badges) <==>
      StreakStar in p.badges || Progress(StreakStar, p.tasks, p.stats.streak) >= AvailableBadges[3].goal
  {
    AwardBadgesRule(held, ts);
  }

  /**
    The Early Bird count on the card equals the one the award rule uses
    whenever no completed task has an empty completion date (completion
    dates are set to a rendered date, which is never empty).
  */
  lemma EarlyCountsAgree(ts: seq<Task>)
    requires forall k :: 0 <= k < |ts| && ts[k].completed && ts[k].completedDate.Some? ==> ts[k].completedDate.value != ""
    ensures Count(ts, IsEarly) == Count(ts, IsEarlyShown)
  {
    forall k | 0 <= k < |ts| ensures IsEarly(ts[k]) == IsEarlyShown(ts[k]) {
      var t := ts[k];
      if t.completed && t.completedDate.Some? && t.dueDate == "" {
        assert !LexLess(t.completedDate.value, t.dueDate);
      }
    }
    CountCongruent(ts, IsEarly, IsEarlyShown);
  }

  /** With those dates the Early Bird card reaches its goal exactly when the award rule fires. */
  lemma EarlyBirdMatchesCard(held: seq<string>, ts: seq<Task>)
    requires forall k :: 0 <= k < |ts| && ts[k].completed && ts[k].completedDate.Some? ==> ts[k].completedDate.value != ""
    ensures EarlyBird in AwardBadges(held, ts) <==> EarlyBird in held || Progress(EarlyBird, ts, 0) >= AvailableBadges[2].goal
  {
    AwardBadgesRule(held, ts);
    EarlyCountsAgree(ts);
  }

  // ---------------------------------------------------------------------
  // Themes

  datatype ThemeOffer = ThemeOffer(name: string, cost: nat)

  /** Every theme the app knows. */
  const Catalogue: seq<string> := [LightMode, "Dark Mode", "Ocean Breeze", "Sunset Glow", "Forest Whisper"]

  /** The themes on sale. */
  const UnlockableThemes: seq<ThemeOffer> := [
    ThemeOffer("Dark Mode", 50),
    ThemeOffer("Ocean Breeze", 50),
    ThemeOffer("Sunset Glow", 50),
    ThemeOffer("Forest Whisper", 50)
  ]

  /** The Redeem button is there only for a locked theme. */
  predicate ShowsRedeemButton(offer: ThemeOffer, unlocked: seq<string>)
  {
    offer.name !in unlocked
  }

  /** `canRedeem`: enough points and not yet unlocked. */
  predicate CanRedeem(points: int, offer: ThemeOffer, unlocked: seq<string>)
  {
    points >= offer.cost && offer.name !in unlocked
  }

  datatype Redeemed = Redeemed(profile: Profile, ok: bool)

  /**
    `handleRedeemTheme(theme)`: too few points is refused; otherwise the
    points drop by the cost and the theme is unlocked.
  */
  function Redeem(p: Profile, offer: ThemeOffer): Redeemed
  {
    if p.points < offer.cost then Redeemed(p, false)
    else Redeemed(p.(points := p.points - offer.cost,
                     unlockedThemes := UnlockTheme(p.unlockedThemes, offer.name)), true)
  }

  /** The four themes on sale are the catalogue without Light Mode, each at 50 points. */
  lemma UnlockableThemesTable()
    ensures |UnlockableThemes| == 4
    ensures forall k :: 0 <= k < 4 ==> UnlockableThemes[k].cost == 50 && UnlockableThemes[k].name == Catalogue[k + 1]
    ensures forall k :: 0 <= k < 4 ==> UnlockableThemes[k].name != LightMode
    ensures Catalogue[0] == LightMode
  {
  }

  /** A refused redemption changes nothing. */
  lemma RedeemRefused(p: Profile, offer: ThemeOffer)
    requires p.points < offer.cost
    ensures Redeem(p, offer) == Redeemed(p, false)
  {
  }

  /**
    An accepted redemption takes exactly the cost, keeps a non-negative
    balance, unlocks the theme at the end and changes nothing else.
  */
  lemma RedeemAccepted(p: Profile, offer: ThemeOffer)
    requires p.points >= offer.cost
    ensures var r := Redeem(p, offer);
      r.ok && r.profile.points == p.points - offer.cost && r.profile.points >= 0 &&
      offer.name in r.profile.unlockedThemes &&
      r.profile.unlockedThemes[..|p.unlockedThemes|] == p.unlockedThemes &&
      r.profile == p.(points := r.profile.points, unlockedThemes := r.profile.unlockedThemes)
    ensures offer.name !in p.unlockedThemes ==>
      Redeem(p, offer).profile.unlockedThemes == p.unlockedThemes + [offer.name]
  {
  }

  /** A shown button is enabled exactly when the points cover the cost. */
  lemma ButtonEnabledRule(points: int, offer: ThemeOffer, unlocked: seq<string>)
    requires ShowsRedeemButton(offer, unlocked)
    ensures CanRedeem(points, offer, unlocked) <==> points >= offer.cost
  {
  }
}
