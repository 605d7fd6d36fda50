/** The game task scheduler's stored state, `appData`: one record per account,
    each holding that account's task list and per-section settings. Instants
    are integer milliseconds since the epoch. */
module SchedulerData {
  import opened Wrappers

  /** A duration as the user typed it, `{days, hours, minutes}`; a field is
      never normalised into the next (90 minutes stay 90 minutes). */
  datatype Duration = Duration(days: int, hours: int, minutes: int)

  /** `days*24*60 + hours*60 + minutes`. */
  function TotalMinutes(d: Duration): int {
    d.days * 1440 + d.hours * 60 + d.minutes
  }

  /** No negative field: every duration read from the duration box is one. */
  predicate NonNegative(d: Duration) {
    d.days >= 0 && d.hours >= 0 && d.minutes >= 0
  }

  /** One worker's task in one section of one account. `task` is the label
      (empty when unassigned); `completion` is the cached display text, `None`
      for JavaScript's `null`. `entryTimestamp` and `totalDeductedMinutes` are
      only ever read, by the upcoming-task view. */
  datatype Task = Task(
    id: string,
    section: string,
    worker: string,
    task: string,
    duration: Option<Duration>,
    completion: Option<string>,
    entryTimestamp: Option<int>,
    totalDeductedMinutes: Option<int>)

  /** One of the two special tasks; a level is the text of its input field,
      `None` before anything was typed. `targetWorker` is used by the worker
      apprentice only. */
  datatype SpecialTask = SpecialTask(level: Option<string>, targetWorker: Option<string>)

  datatype SpecialTasks = SpecialTasks(labAssistant: SpecialTask, workerApprentice: SpecialTask)

  /** An account's stored record. `levels` and `workerCounts` are `None` when
      the stored object lacks them; `specialTasks` is `None` when absent. */
  datatype Account = Account(
    avatar: string,
    tasks: seq<Task>,
    levels: Option<map<string, string>>,
    workerCounts: Option<map<string, int>>,
    specialTasks: Option<SpecialTasks>)

  datatype AppData = AppData(accounts: map<string, Account>)

  datatype AccountConfig = AccountConfig(name: string, avatar: string)

  datatype SectionConfig = SectionConfig(id: string, title: string, defaultLevel: string, unit: string)

  const HomeVillage: string := "home-village"
  const Laboratory: string := "laboratory"

  /** The sections every account has, in display order. */
  const SectionsConfig: seq<SectionConfig> := [
    SectionConfig(HomeVillage, "大本營", "5", "本"),
    SectionConfig(Laboratory, "實驗室", "5", "級"),
    SectionConfig("pet-house", "戰寵小屋", "1", "級"),
    SectionConfig("builder-base", "建築大師", "2", "本"),
    SectionConfig("star-laboratory", "星空實驗", "5", "級")
  ]
}
