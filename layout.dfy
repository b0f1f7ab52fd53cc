/**
  The layout component's state and handlers, run step by step on fields.
  Each handler is proved to end in the state the matching function of
  `Handlers` describes, so every property proved there holds of the class.
*/
module Layout {
  import opened Text
  import opened Dates
  import opened Tasks
  import opened StudyLog
  import opened Handlers
  import Rewards

  /**
    The badge checks of `toggleTaskComplete`: each task badge not held
    before is appended once its count over the updated tasks reaches the
    threshold.
  */
  method CheckBadges(updatedTasks: seq<Task>, held: seq<string>) returns (newBadges: seq<string>)
    ensures newBadges == AwardBadges(held, updatedTasks)
  {
    newBadges := held;
    var highPriorityTasks := Count(updatedTasks, IsCompletedHigh);
    if highPriorityTasks >= 5 && PriorityMaster !in held {
      newBadges := newBadges + [PriorityMaster];
    }
    var totalCompletedTasks := Count(updatedTasks, IsCompleted);
    if totalCompletedTasks >= 10 && TaskTitan !in held {
      newBadges := newBadges + [TaskTitan];
    }
    var earlyTasks := Count(updatedTasks, IsEarly);
    if earlyTasks >= 3 && EarlyBird !in held {
      newBadges := newBadges + [EarlyBird];
    }
  }

  class StudyProfile {
    var tasks: seq<Task>
    var studyStats: StudyStats
    var points: int
    var badges: seq<string>
    var currentTheme: string
    var unlockedThemes: seq<string>

    /** The whole state as a value. */
    function State(): Profile
      reads this
    {
      Profile(tasks, studyStats, points, badges, currentTheme, unlockedThemes)
    }

    /** The `useState` initial values. */
    constructor()
      ensures State() == Initial
    {
      tasks := [];
      studyStats := InitialStats;
      points := 0;
      badges := [];
      currentTheme := LightMode;
      unlockedThemes := [LightMode];
    }

    /**
      `fetchUserData` after a successful fetch: take over the stored profile,
      then reconcile the streak against today.
    */
    method Load(data: Profile, today: Date)
      modifies this
      ensures State() == data.(stats := Reconcile(data.stats, today))
    {
      tasks := data.tasks;
      var fetched := data.stats;
      studyStats := fetched;
      points := data.points;
      badges := data.badges;
      currentTheme := data.currentTheme;
      unlockedThemes := data.unlockedThemes;
      if fetched.lastStreakUpdate != Some(today) {
        var newStats;
        if fetched.lastActiveDate.None? {
          newStats := fetched.(lastActiveDate := Some(today), lastStreakUpdate := Some(today));
        } else {
          var diffDays := DayGap(fetched.lastActiveDate.value, today);
          if diffDays == 1 {
            newStats := fetched.(streak := fetched.streak + 1, lastActiveDate := Some(today), lastStreakUpdate := Some(today));
          } else if diffDays > 1 {
            newStats := fetched.(streak := 0, lastActiveDate := Some(today), lastStreakUpdate := Some(today));
          } else {
            newStats := fetched.(lastStreakUpdate := Some(today));
          }
        }
        studyStats := newStats;
      }
    }

    /** `updateStreak(today)`. */
    method UpdateStreak(today: Date)
      modifies this
      ensures studyStats == Handlers.UpdateStreak(old(studyStats), today)
      ensures State() == old(State()).(stats := studyStats)
    {
      var prev := studyStats;
      var newStreak := prev.streak;
      var newLastStreakUpdate := prev.lastStreakUpdate;
      if prev.lastActiveDate.None? || prev.lastActiveDate.value != today {
        if prev.lastActiveDate.Some? {
          var diffDays := DayGap(prev.lastActiveDate.value, today);
          if diffDays == 1 {
            newStreak := prev.streak + 1;
            newLastStreakUpdate := Some(today);
          } else if diffDays > 1 {
            newStreak := 1;
            newLastStreakUpdate := Some(today);
          }
        } else {
          newStreak := 1;
          newLastStreakUpdate := Some(today);
        }
      }
      if prev.lastStreakUpdate.Some? && prev.lastStreakUpdate.value != today {
        var diffDays := DayGap(prev.lastStreakUpdate.value, today);
        if diffDays > 1 {
          newStreak := 1;
          newLastStreakUpdate := Some(today);
        }
      }
      studyStats := prev.(streak := newStreak, lastActiveDate := Some(today), lastStreakUpdate := newLastStreakUpdate);
    }

    /** `logStudyHours(hours)`, with the parsed amount in hundredths (None for NaN). */
    method LogStudyHours(amount: Option<int>, today: Date)
      modifies this
      ensures studyStats == Handlers.LogStudyHours(old(studyStats), today, amount)
      ensures State() == old(State()).(stats := studyStats)
    {
      if amount.None? || amount.value <= 0 {
        return;
      }
      var h := amount.value as nat;
      var date := RenderDmy(today);
      var prev := studyStats;
      var updatedLog;
      if HasDate(prev.studyHoursLog, date) {
        updatedLog := AddToDate(prev.studyHoursLog, date, h);
      } else {
        updatedLog := prev.studyHoursLog + [LogEntry(date, h)];
      }
      studyStats := prev.(totalHours := prev.totalHours + h, studyHoursLog := updatedLog);
      UpdateStreak(today);
    }

    /** `deductStudyHours(hours, completedDate)`. */
    method DeductStudyHours(amount: Option<int>, date: string)
      modifies this
      ensures studyStats == Handlers.DeductStudyHours(old(studyStats), date, amount)
      ensures State() == old(State()).(stats := studyStats)
    {
      if amount.None? || amount.value <= 0 {
        return;
      }
      var h := amount.value as nat;
      var prev := studyStats;
      var updatedLog := prev.studyHoursLog;
      var existing := FirstWithDate(prev.studyHoursLog, date);
      if existing.Some? {
        var had := prev.studyHoursLog[existing.value].hours;
        var newHours := Clamped(had, h);
        updatedLog := DropEmpty(SetDate(prev.studyHoursLog, date, newHours));
      }
      var newTotal := Clamped(prev.totalHours, h);
      studyStats := prev.(totalHours := newTotal, studyHoursLog := updatedLog);
    }

    /** `addTask(newTask)`, with `now` for `Date.now()`. */
    method AddTask(nt: NewTask, now: int)
      modifies this
      ensures State() == Handlers.AddTask(old(State()), nt, now)
    {
      var formattedDueDate := FormatDueDate(nt.dueDate);
      var task := Task(now, nt.title, formattedDueDate, nt.priority, nt.completed, None, false, nt.hours, false);
      tasks := tasks + [task];
    }

    /** `deleteTask(id)`. */
    method DeleteTask(id: int)
      modifies this
      ensures State() == Handlers.DeleteTask(old(State()), id)
    {
      var found := FirstWithId(tasks, id);
      if found.None? {
        return;
      }
      var taskToDelete := tasks[found.value];
      if taskToDelete.completed {
        if taskToDelete.hours > 0 && Present(taskToDelete.completedDate) {
          DeductStudyHours(Some(taskToDelete.hours), taskToDelete.completedDate.value);
        }
        if taskToDelete.pointsAwarded {
          points := points - PriorityPoints(taskToDelete.priority);
        }
      }
      tasks := WithoutId(tasks, id);
    }

    /**
      `toggleTaskComplete(id)`, on the day `today`: find the first task with
      the id and run the completing or the un-completing branch on it.
    */
    method ToggleTaskComplete(id: int, today: Date)
      modifies this
      ensures State() == ToggleTask(old(State()), id, today)
    {
      var found := FirstWithId(tasks, id);
      if found.None? {
        return;
      }
      var i := found.value;
      if !tasks[i].completed {
        CompleteTask(id, i, today);
      } else {
        UncompleteTask(id, i, today);
      }
    }

    /**
      The completing branch. The points, the badges and the task list are
      those of the render the handler runs in; the study hours and the streak
      go through the state-updating handlers.
    */
    method CompleteTask(id: int, i: nat, today: Date)
      requires i < |tasks|
      modifies this
      ensures State() == CompleteAt(old(State()), id, i, today)
    {
      ghost var before := State();
      ghost var goal := CompleteAt(before, id, i, today);
      var currentTasks := tasks;
      var currentPoints := points;
      var currentBadges := badges;
      var task := currentTasks[i];
      var newPoints := currentPoints;
      var updatedTasks := FlipAll(currentTasks, id, RenderDmy(today));
      var pointsToAdd := PriorityPoints(task.priority);
      if !updatedTasks[i].pointsAwarded {
        newPoints := currentPoints + pointsToAdd;
        updatedTasks := updatedTasks[i := updatedTasks[i].(pointsAwarded := true)];
      }
      assert updatedTasks == goal.tasks && newPoints == goal.points;
      ghost var logged := if task.hours > 0 then Handlers.LogStudyHours(before.stats, today, Some(task.hours)) else before.stats;
      if task.hours > 0 {
        LogStudyHours(Some(task.hours), today);
      }
      assert studyStats == logged;
      assert currentTheme == before.currentTheme && unlockedThemes == before.unlockedThemes;
      var newBadges := CheckBadges(updatedTasks, currentBadges);
      assert newBadges == goal.badges;
      UpdateStreak(today);
      assert studyStats == Handlers.UpdateStreak(logged, today) == goal.stats;
      assert currentTheme == goal.currentTheme && unlockedThemes == goal.unlockedThemes;
      tasks := updatedTasks;
      points := newPoints;
      badges := newBadges;
      assert State() == goal;
    }

    /** The un-completing branch. */
    method UncompleteTask(id: int, i: nat, today: Date)
      requires i < |tasks|
      modifies this
      ensures State() == UncompleteAt(old(State()), id, i, today)
    {
      ghost var before := State();
      var currentTasks := tasks;
      var currentPoints := points;
      var task := currentTasks[i];
      var newPoints := currentPoints;
      var updatedTasks := FlipAll(currentTasks, id, RenderDmy(today));
      var pointsToDeduct := PriorityPoints(task.priority);
      if updatedTasks[i].pointsAwarded {
        newPoints := currentPoints - pointsToDeduct;
        updatedTasks := updatedTasks[i := updatedTasks[i].(pointsAwarded := false)];
      }
      if task.hours > 0 && Present(task.completedDate) {
        DeductStudyHours(Some(task.hours), task.completedDate.value);
      }
      ghost var goal := UncompleteAt(before, id, i, today);
      assert updatedTasks == goal.tasks && newPoints == goal.points;
      assert studyStats == goal.stats;
      assert currentTheme == before.currentTheme && unlockedThemes == before.unlockedThemes;
      tasks := updatedTasks;
      points := newPoints;
      assert State() == goal;
    }

    /** `updateTask(task)`. */
    method UpdateTask(u: Task)
      modifies this
      ensures State() == Handlers.UpdateTask(old(State()), u)
    {
      tasks := ReplaceById(tasks, u);
    }

    /** The effect that awards the Streak Star. */
    method AwardStreakStar()
      modifies this
      ensures State() == Handlers.AwardStreakStar(old(State()))
    {
      if studyStats.streak >= 7 && StreakStar !in badges {
        badges := badges + [StreakStar];
        points := points + 50;
      }
    }

    /** The effect that recounts the completed tasks after the task list changes. */
    method SyncCompleted()
      modifies this
      ensures State() == Handlers.SyncCompleted(old(State()))
    {
      var completedCount := Count(tasks, IsCompleted);
      studyStats := studyStats.(completedTasks := completedCount);
    }

    /** `handleThemeChange()`. */
    method ChangeTheme()
      modifies this
      ensures State() == Handlers.ChangeTheme(old(State()))
    {
      var nextTheme := NextTheme(unlockedThemes, currentTheme);
      if nextTheme.Some? {
        currentTheme := nextTheme.value;
      }
    }

    /** `handlePointsUpdate(newPoints)`. */
    method UpdatePoints(newPoints: int)
      modifies this
      ensures State() == old(State()).(points := newPoints)
    {
      points := newPoints;
    }

    /** `handleThemeUnlock(themeName)`. */
    method UnlockTheme(themeName: string)
      modifies this
      ensures State() == old(State()).(unlockedThemes := Handlers.UnlockTheme(old(unlockedThemes), themeName))
    {
      if themeName !in unlockedThemes {
        unlockedThemes := unlockedThemes + [themeName];
      }
    }

    /**
      `handleRedeemTheme(theme)` of the rewards page, which calls back into
      `handlePointsUpdate` and `handleThemeUnlock`.
    */
    method RedeemTheme(offer: Rewards.ThemeOffer) returns (ok: bool)
      modifies this
      ensures Rewards.Redeemed(State(), ok) == Rewards.Redeem(old(State()), offer)
    {
      if points < offer.cost {
        return false;
      }
      UpdatePoints(points - offer.cost);
      UnlockTheme(offer.name);
      return true;
    }
  }
}
