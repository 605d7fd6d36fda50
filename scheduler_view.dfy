/** `renderScheduler` (jsscheduler.js): the page listing, across every
    account, the tasks that complete within the next 24 hours, earliest
    first. The completion instant of a task comes from a three-argument
    `calculateCompletionTime(entryTimestamp, originalMinutes, deducted)`
    whose definition is not part of this model; it is the parameter
    `rawTime`, and its `rawTime` field is a `RawTime`. */
module SchedulerView {
  import opened Wrappers
  import opened Sequences
  import opened SchedulerData
  import opened SchedulerUtils

  /** `24 * 60 * 60 * 1000`: the window's length in milliseconds. */
  const DayMs: int := 24 * 60 * 60 * 1000

  /** The title shown for a task whose section has no (non-empty) title. */
  const UnknownSection: string := "未知區域"

  /** The text shown when no task completes within the window. */
  const NoTasksMessage: string := "未來24小時內沒有任何已排程的任務。"

  /** The `rawTime` field of a completion result: absent (falsy), the
      `'已完成'` sentinel, or a `Date` at `ms` milliseconds. */
  datatype RawTime = NoTime | Finished | At(ms: int)

  // ---------------------------------------------------------------------
  // Section titles
  // ---------------------------------------------------------------------

  /** `sectionsConfig.reduce((map, section) => { map[section.id] =
      section.title; ... }, {})`: a later section with the same id
      overwrites an earlier one. */
  function TitleMap(sections: seq<SectionConfig>): map<string, string> {
    if sections == [] then map[]
    else TitleMap(sections[..|sections| - 1])[sections[|sections| - 1].id := sections[|sections| - 1].title]
  }

  /** The map has a title for exactly the configured ids, and it is the
      title of the last section with that id. */
  lemma {:induction false} TitleMapLookup(sections: seq<SectionConfig>, id: string)
    ensures id in TitleMap(sections) <==> exists i :: 0 <= i < |sections| && sections[i].id == id
    ensures id in TitleMap(sections) ==>
      exists i :: 0 <= i < |sections| && sections[i].id == id && TitleMap(sections)[id] == sections[i].title
        && forall j :: i < j < |sections| ==> sections[j].id != id
  {
    if sections != [] {
      var init := sections[..|sections| - 1];
      var n := |sections| - 1;
      TitleMapLookup(init, id);
      if sections[n].id != id {
        if id in TitleMap(init) {
          var i :| 0 <= i < |init| && init[i].id == id && TitleMap(init)[id] == init[i].title
            && forall j :: i < j < |init| ==> init[j].id != id;
          assert sections[i] == init[i];
        }
        assert forall i :: 0 <= i < n ==> sections[i] == init[i];
      } else {
        assert sections[n].id == id && TitleMap(sections)[id] == sections[n].title;
      }
    }
  }

  /** `sectionTitleMap[task.section] || '未知區域'`. */
  function SectionTitle(titles: map<string, string>, section: string): (r: string)
    ensures r != ""
    ensures section in titles && titles[section] != "" ==> r == titles[section]
    ensures !(section in titles && titles[section] != "") ==> r == UnknownSection
  {
    if section in titles && titles[section] != "" then titles[section] else UnknownSection
  }

  // ---------------------------------------------------------------------
  // Which tasks are listed
  // ---------------------------------------------------------------------

  /** `task.task && task.duration && task.entryTimestamp`: a task name, a
      duration and a non-zero entry time. */
  predicate IsScheduled(t: Task) {
    t.task != "" && t.duration.Some? && t.entryTimestamp.Some? && t.entryTimestamp.value != 0
  }

  /** The completion result of a scheduled task: its entry time, its
      duration in minutes, and `totalDeductedMinutes || 0`. */
  function CompletionOf(t: Task, rawTime: (int, int, int) -> RawTime): RawTime
    requires IsScheduled(t)
  {
    rawTime(t.entryTimestamp.value, TotalMinutes(t.duration.value), t.totalDeductedMinutes.GetOr(0))
  }

  /** A completion that is a time after `now` and at most 24 hours later. */
  predicate InWindow(r: RawTime, now: int) {
    r.At? && now < r.ms <= now + DayMs
  }

  /** A listed task: the task's own fields, its account, the account's
      avatar, its section's title, and its completion instant. */
  datatype Upcoming = Upcoming(task: Task, accountName: string, avatar: string, sectionTitle: string,
                               completionDate: int)

  /** The record pushed for task `t` of account `name`, if any. */
  function RecordOf(name: string, account: Account, titles: map<string, string>, t: Task, now: int,
                    rawTime: (int, int, int) -> RawTime): Option<Upcoming>
  {
    if IsScheduled(t) && InWindow(CompletionOf(t, rawTime), now) then
      Some(Upcoming(t, name, account.avatar, SectionTitle(titles, t.section), CompletionOf(t, rawTime).ms))
    else None
  }

  /** What visiting task `t` of account `name` pushes: its record, if any. */
  function RecordsOfTask(name: string, account: Account, titles: map<string, string>, now: int,
                         rawTime: (int, int, int) -> RawTime): Task -> seq<Upcoming>
  {
    (t: Task) => var r := RecordOf(name, account, titles, t, now, rawTime); if r.Some? then [r.value] else []
  }

  /** The records pushed while walking the tasks of account `name`, in order. */
  function TaskRecords(name: string, account: Account, titles: map<string, string>, now: int,
                       rawTime: (int, int, int) -> RawTime): seq<Upcoming>
  {
    FlatMap(account.tasks, RecordsOfTask(name, account, titles, now, rawTime))
  }

  /** What visiting the account `name` pushes. */
  function RecordsOfAccount(accounts: map<string, Account>, titles: map<string, string>, now: int,
                            rawTime: (int, int, int) -> RawTime): string -> seq<Upcoming>
  {
    (name: string) => if name in accounts then TaskRecords(name, accounts[name], titles, now, rawTime) else []
  }

  /** The records pushed while walking the accounts named in `order`, then
      each account's tasks, before sorting. */
  function AllRecords(accounts: map<string, Account>, order: seq<string>, titles: map<string, string>, now: int,
                      rawTime: (int, int, int) -> RawTime): seq<Upcoming>
  {
    FlatMap(order, RecordsOfAccount(accounts, titles, now, rawTime))
  }

  /** `order` is `Object.keys(data.accounts)`: every account, once. */
  predicate KeysOf(order: seq<string>, accounts: map<string, Account>) {
    && (forall k :: 0 <= k < |order| ==> order[k] in accounts)
    && (forall j, k :: 0 <= j < k < |order| ==> order[j] != order[k])
    && (forall name :: name in accounts ==> name in order)
  }

  /** `u` is the record of a scheduled task of account `u.accountName`
      whose completion falls within the 24 hours after `now`, carrying that
      account's avatar and the title of the task's section. */
  predicate Listed(accounts: map<string, Account>, titles: map<string, string>, now: int,
                   rawTime: (int, int, int) -> RawTime, u: Upcoming)
  {
    && u.accountName in accounts
    && u.task in accounts[u.accountName].tasks
    && IsScheduled(u.task)
    && CompletionOf(u.task, rawTime) == At(u.completionDate)
    && now < u.completionDate <= now + DayMs
    && u.avatar == accounts[u.accountName].avatar
    && u.sectionTitle == SectionTitle(titles, u.task.section)
  }

  /** Every record pushed is `Listed`. */
  lemma UpcomingSound(accounts: map<string, Account>, order: seq<string>, titles: map<string, string>,
                      now: int, rawTime: (int, int, int) -> RawTime, u: Upcoming)
    requires u in AllRecords(accounts, order, titles, now, rawTime)
    ensures Listed(accounts, titles, now, rawTime, u)
  {
    var ofAccount := RecordsOfAccount(accounts, titles, now, rawTime);
    FlatMapMembers(order, ofAccount, u);
    var k :| 0 <= k < |order| && u in ofAccount(order[k]);
    var account := accounts[order[k]];
    FlatMapMembers(account.tasks, RecordsOfTask(order[k], account, titles, now, rawTime), u);
  }

  /** Every `Listed` record of an account in `order` is pushed. */
  lemma UpcomingComplete(accounts: map<string, Account>, order: seq<string>, titles: map<string, string>,
                         now: int, rawTime: (int, int, int) -> RawTime, u: Upcoming)
    requires Listed(accounts, titles, now, rawTime, u)
    requires u.accountName in order
    ensures u in AllRecords(accounts, order, titles, now, rawTime)
  {
    var account := accounts[u.accountName];
    var ofTask := RecordsOfTask(u.accountName, account, titles, now, rawTime);
    var i :| 0 <= i < |account.tasks| && account.tasks[i] == u.task;
    assert u in ofTask(account.tasks[i]);
    FlatMapMembers(account.tasks, ofTask, u);
    var ofAccount := RecordsOfAccount(accounts, titles, now, rawTime);
    var k :| 0 <= k < |order| && order[k] == u.accountName;
    assert u in ofAccount(order[k]);
    FlatMapMembers(order, ofAccount, u);
  }

  /** The tasks listed are exactly the scheduled tasks, of any account,
      whose completion falls within the 24 hours after `now`. */
  lemma UpcomingExactly(accounts: map<string, Account>, order: seq<string>, sections: seq<SectionConfig>,
                        now: int, rawTime: (int, int, int) -> RawTime, u: Upcoming)
    requires KeysOf(order, accounts)
    ensures u in AllRecords(accounts, order, TitleMap(sections), now, rawTime)
        <==> Listed(accounts, TitleMap(sections), now, rawTime, u)
  {
    var titles := TitleMap(sections);
    if u in AllRecords(accounts, order, titles, now, rawTime) {
      UpcomingSound(accounts, order, titles, now, rawTime, u);
    }
    if Listed(accounts, titles, now, rawTime, u) {
      UpcomingComplete(accounts, order, titles, now, rawTime, u);
    }
  }

  // ---------------------------------------------------------------------
  // Ordering
  // ---------------------------------------------------------------------

  /** The comparator `(a, b) => a.completionDate - b.completionDate`, as
      "may stand before". */
  function EarlierOrSame(): (Upcoming, Upcoming) -> bool {
    (a: Upcoming, b: Upcoming) => a.completionDate <= b.completionDate
  }

  lemma EarlierOrSameTotal()
    ensures TotalPreorder(EarlierOrSame())
  {
  }

  /** After the sort the records are the same records, earliest first; of
      records completing at the same instant, those of an earlier account
      (and, within an account, an earlier task) come first. */
  lemma UpcomingSorted(records: seq<Upcoming>, e: Upcoming)
    ensures var sorted := Sort(records, EarlierOrSame());
      && multiset(sorted) == multiset(records)
      && (forall i, j :: 0 <= i < j < |sorted| ==> sorted[i].completionDate <= sorted[j].completionDate)
      && Filter(sorted, TiedWith(EarlierOrSame(), e)) == Filter(records, TiedWith(EarlierOrSame(), e))
  {
    EarlierOrSameTotal();
    SortSorted(records, EarlierOrSame());
    SortStable(records, EarlierOrSame(), e);
  }

  // ---------------------------------------------------------------------
  // The rendered list
  // ---------------------------------------------------------------------

  /** One line of the list: the section (for its style), the avatar, the
      account's name, the section's title, the task's name, the completion
      as `MM/DD HH:mm`, and the task id the delete button carries. */
  datatype Entry = Entry(section: string, avatar: string, accountName: string, sectionTitle: string,
                         taskName: string, time: string, taskId: string)

  /** The list's content: the no-tasks message, or the lines. */
  datatype View = Message(text: string) | Entries(entries: seq<Entry>)

  function EntryOf(u: Upcoming, local: int -> LocalFields): Entry {
    Entry(u.task.section, u.avatar, u.accountName, u.sectionTitle, u.task.task,
          FormatStamp(local(u.completionDate)), u.task.id)
  }

  /** `EntryOf` at the local clock `local`. */
  function LineOf(local: int -> LocalFields): Upcoming -> Entry {
    (u: Upcoming) => EntryOf(u, local)
  }

  /** What the list shows for the sorted records. */
  function ViewOf(sorted: seq<Upcoming>, local: int -> LocalFields): View {
    if sorted == [] then Message(NoTasksMessage) else Entries(Map(sorted, LineOf(local)))
  }

  /** The message is shown exactly when no task is listed. */
  lemma ViewMessage(records: seq<Upcoming>, local: int -> LocalFields)
    ensures var sorted := Sort(records, EarlierOrSame());
      && |sorted| == |records|
      && (ViewOf(sorted, local) == Message(NoTasksMessage) <==> records == [])
  {
    var sorted := Sort(records, EarlierOrSame());
    assert |sorted| == |multiset(sorted)| == |multiset(records)| == |records|;
  }

  /** Otherwise there is one line per listed task, in the sorted order; each
      carries the task's id and account, and its time reads back as the
      local fields of the task's completion instant. */
  lemma ViewEntries(sorted: seq<Upcoming>, local: int -> LocalFields)
    requires sorted != []
    ensures var view := ViewOf(sorted, local);
      && view.Entries?
      && |view.entries| == |sorted|
      && forall i :: 0 <= i < |sorted| ==>
           view.entries[i].taskId == sorted[i].task.id
           && view.entries[i].accountName == sorted[i].accountName
           && ReadStamp(view.entries[i].time) == Some(local(sorted[i].completionDate))
  {
    MapIndex(sorted, LineOf(local));
    forall i | 0 <= i < |sorted|
      ensures ReadStamp(EntryOf(sorted[i], local).time) == Some(local(sorted[i].completionDate))
    {
      FormatStampReads(local(sorted[i].completionDate));
    }
  }

  /** The inner `account.tasks.forEach`: push the record of each task of
      `account` that completes within the window, in task order. */
  method CollectTasks(name: string, account: Account, titles: map<string, string>, now: int,
                      rawTime: (int, int, int) -> RawTime)
    returns (records: seq<Upcoming>)
    ensures records == TaskRecords(name, account, titles, now, rawTime)
  {
    ghost var ofTask := RecordsOfTask(name, account, titles, now, rawTime);
    records := [];
    var j := 0;
    while j < |account.tasks|
      invariant 0 <= j <= |account.tasks|
      invariant records == FlatMap(account.tasks[..j], ofTask)
    {
      var t := account.tasks[j];
      ghost var pushed := records;
      if IsScheduled(t) {
        var completion := CompletionOf(t, rawTime);
        if completion.At? && now < completion.ms <= now + DayMs {
          records := records + [Upcoming(t, name, account.avatar, SectionTitle(titles, t.section), completion.ms)];
        }
      }
      assert records == pushed + ofTask(t);
      assert account.tasks[..j + 1][..j] == account.tasks[..j];
      j := j + 1;
    }
    assert account.tasks[..j] == account.tasks;
  }

  /** The outer `Object.keys(data.accounts).forEach`: the records of every
      account in key order. */
  method CollectAccounts(accounts: map<string, Account>, order: seq<string>, titles: map<string, string>,
                         now: int, rawTime: (int, int, int) -> RawTime)
    returns (upcoming: seq<Upcoming>)
    requires KeysOf(order, accounts)
    ensures upcoming == AllRecords(accounts, order, titles, now, rawTime)
  {
    ghost var ofAccount := RecordsOfAccount(accounts, titles, now, rawTime);
    upcoming := [];
    var i := 0;
    while i < |order|
      invariant 0 <= i <= |order|
      invariant upcoming == FlatMap(order[..i], ofAccount)
    {
      var records := CollectTasks(order[i], accounts[order[i]], titles, now, rawTime);
      assert records == ofAccount(order[i]);
      upcoming := upcoming + records;
      assert order[..i + 1][..i] == order[..i];
      i := i + 1;
    }
    assert order[..i] == order;
  }

  /** The final `upcomingTasks.forEach`: one line `lineOf(u)` per sorted
      record `u`, in order. */
  method ListEntries(sorted: seq<Upcoming>, lineOf: Upcoming -> Entry) returns (entries: seq<Entry>)
    ensures entries == Map(sorted, lineOf)
  {
    entries := [];
    var k := 0;
    while k < |sorted|
      invariant 0 <= k <= |sorted|
      invariant entries == Map(sorted[..k], lineOf)
    {
      entries := entries + [lineOf(sorted[k])];
      assert sorted[..k + 1][..k] == sorted[..k];
      k := k + 1;
    }
    assert sorted[..k] == sorted;
  }

  /** `renderScheduler(data, sectionsConfig)` at instant `now`: collect the
      records of the tasks completing within the next 24 hours, sort them by
      completion, and show the message or one line per record. */
  method RenderScheduler(accounts: map<string, Account>, order: seq<string>, sections: seq<SectionConfig>,
                         now: int, rawTime: (int, int, int) -> RawTime, local: int -> LocalFields)
    returns (view: View)
    requires KeysOf(order, accounts)
    ensures view == ViewOf(Sort(AllRecords(accounts, order, TitleMap(sections), now, rawTime), EarlierOrSame()), local)
  {
    var titles := TitleMap(sections);
    var upcoming := CollectAccounts(accounts, order, titles, now, rawTime);
    var sorted := Sort(upcoming, EarlierOrSame());
    if |sorted| == 0 {
      return Message(NoTasksMessage);
    }
    var entries := ListEntries(sorted, LineOf(local));
    view := Entries(entries);
  }
}
