/** jsutils.js: loading the stored state with its defaults, and the
    completion time shown beside a worker row. */
module SchedulerUtils {
  import opened Wrappers
  import opened Text
  import opened SchedulerData

  // ---------------------------------------------------------------------
  // Loading and defaults
  // ---------------------------------------------------------------------

  /** The names of the configured accounts. */
  function Names(config: seq<AccountConfig>): set<string> {
    set c | c in config :: c.name
  }

  /** The avatar of the last configured account called `name`: when a name is
      configured twice, the later assignment wins. */
  function LastAvatar(config: seq<AccountConfig>, name: string): (a: string)
    requires name in Names(config)
    ensures exists i :: (0 <= i < |config| && config[i].name == name && config[i].avatar == a
      && forall j :: i < j < |config| ==> config[j].name != name)
  {
    var last := config[|config| - 1];
    if last.name == name then last.avatar
    else
      assert name in Names(config[..|config| - 1]) by {
        var c :| c in config && c.name == name;
        assert c in config[..|config| - 1];
      }
      LastAvatar(config[..|config| - 1], name)
  }

  /** The record a configured account starts with when nothing is stored:
      its avatar, no tasks, empty `levels` and `workerCounts`, and no
      `specialTasks`. */
  function FreshAccount(avatar: string): Account {
    Account(avatar, [], Some(map[]), Some(map[]), None)
  }

  /** `after` is `before` with `levels` and `workerCounts` present: an absent
      one becomes empty, a present one is kept, nothing else changes. */
  predicate Normalised(before: Account, after: Account) {
    && after.levels == Some(before.levels.GetOr(map[]))
    && after.workerCounts == Some(before.workerCounts.GetOr(map[]))
    && after.(levels := before.levels, workerCounts := before.workerCounts) == before
  }

  /** `loadData(accountsConfig)`, with the parsed stored value as `stored`
      (`None` when nothing is stored). */
  method LoadData(config: seq<AccountConfig>, stored: Option<AppData>) returns (data: AppData)
    ensures stored.Some? ==> data.accounts.Keys == stored.value.accounts.Keys
    ensures stored.Some? ==> forall name :: name in data.accounts ==>
      if name in Names(config) then Normalised(stored.value.accounts[name], data.accounts[name])
      else data.accounts[name] == stored.value.accounts[name]
    ensures stored.None? ==> data.accounts.Keys == Names(config)
    ensures stored.None? ==> forall name :: name in data.accounts ==>
      data.accounts[name] == FreshAccount(LastAvatar(config, name))
  {
    if stored.Some? {
      var original := stored.value.accounts;
      var accounts := original;
      var i := 0;
      while i < |config|
        invariant 0 <= i <= |config|
        invariant accounts.Keys == original.Keys
        invariant forall name :: name in accounts ==>
          if name in Names(config[..i]) then Normalised(original[name], accounts[name])
          else accounts[name] == original[name]
      {
        var name := config[i].name;
        if name in accounts {
          var account := accounts[name];
          if account.levels.None? {
            account := account.(levels := Some(map[]));
          }
          if account.workerCounts.None? {
            account := account.(workerCounts := Some(map[]));
          }
          accounts := accounts[name := account];
        }
        assert config[..i + 1] == config[..i] + [config[i]];
        i := i + 1;
      }
      assert config[..i] == config;
      data := AppData(accounts);
    } else {
      var accounts: map<string, Account> := map[];
      var i := 0;
      while i < |config|
        invariant 0 <= i <= |config|
        invariant accounts.Keys == Names(config[..i])
        invariant forall name :: name in accounts ==>
          accounts[name] == FreshAccount(LastAvatar(config[..i], name))
      {
        var account := config[i];
        assert config[..i + 1] == config[..i] + [account];
        assert config[..i + 1][..i] == config[..i];
        accounts := accounts[account.name := FreshAccount(account.avatar)];
        i := i + 1;
      }
      assert config[..i] == config;
      data := AppData(accounts);
    }
  }

  /** With nothing stored and no name configured twice, every configured
      account starts with exactly its own avatar and empty settings. */
  lemma FreshAccountsOfDistinctConfig(config: seq<AccountConfig>, i: nat)
    requires i < |config|
    requires forall j, k :: 0 <= j < k < |config| ==> config[j].name != config[k].name
    ensures config[i].name in Names(config)
    ensures LastAvatar(config, config[i].name) == config[i].avatar
  {
    assert config[i] in config;
  }

  // ---------------------------------------------------------------------
  // Completion time
  // ---------------------------------------------------------------------

  datatype Fields = Fields(month: int, day: int, hour: int, minute: int)

  /** The local calendar reading of an instant: `getMonth() + 1`, `getDate()`,
      `getHours()` and `getMinutes()`. */
  type LocalFields = f: Fields | 1 <= f.month <= 12 && 1 <= f.day <= 31 && 0 <= f.hour <= 23 && 0 <= f.minute <= 59
    witness Fields(1, 1, 0, 0)

  /** `MM/DD HH:MM`: month, day, hours and minutes, each padded to two digits,
      no year. */
  function FormatStamp(f: LocalFields): string {
    Pad2(f.month) + "/" + Pad2(f.day) + " " + Pad2(f.hour) + ":" + Pad2(f.minute)
  }

  /** The text is eleven characters long and reads back as the four fields. */
  lemma FormatStampReads(f: LocalFields)
    ensures |FormatStamp(f)| == 11
    ensures ReadStamp(FormatStamp(f)) == Some(f)
  {
    var r := FormatStamp(f);
    assert r[0..2] == Pad2(f.month) && r[3..5] == Pad2(f.day);
    assert r[6..8] == Pad2(f.hour) && r[9..11] == Pad2(f.minute);
  }

  predicate IsDigitPair(s: string, at: nat) {
    at + 2 <= |s| && IsDigit(s[at]) && IsDigit(s[at + 1])
  }

  /** Reads an `MM/DD HH:MM` text back into its four numbers. */
  function ReadStamp(s: string): Option<Fields> {
    if |s| == 11 && s[2] == '/' && s[5] == ' ' && s[8] == ':'
       && IsDigitPair(s, 0) && IsDigitPair(s, 3) && IsDigitPair(s, 6) && IsDigitPair(s, 9)
    then Some(Fields(DecimalValue(s[0..2]), DecimalValue(s[3..5]), DecimalValue(s[6..8]), DecimalValue(s[9..11])))
    else None
  }

  /** Two instants show the same text exactly when their readings agree. */
  lemma FormatStampInjective(f: LocalFields, g: LocalFields)
    ensures FormatStamp(f) == FormatStamp(g) <==> f == g
  {
    FormatStampReads(f);
    FormatStampReads(g);
  }

  const MinutesUnit: string := "分鐘"
  const HoursUnit: string := "小時"
  const DaysUnit: string := "天"

  const MsPerMinute: int := 60 * 1000

  /** The instant `duration` units after `now`; an unknown unit adds nothing. */
  function Later(now: int, duration: int, unit: string): int {
    if unit == MinutesUnit then now + duration * MsPerMinute
    else if unit == HoursUnit then now + duration * 60 * MsPerMinute
    else if unit == DaysUnit then now + duration * 24 * 60 * MsPerMinute
    else now
  }

  /** The largest distance from the epoch, in milliseconds, a `Date` can
      hold; beyond it the date is invalid (section 21.4.1.31 of ECMAScript,
      TimeClip). */
  const MaxTimeValue: int := 8_640_000_000_000_000

  predicate InDateRange(t: int) {
    -MaxTimeValue <= t <= MaxTimeValue
  }

  /** What the format gives for an invalid date: every getter is NaN, and
      `padStart` leaves the three letters of `"NaN"` alone. */
  const InvalidStamp: string := "NaN/NaN NaN:NaN"

  /** `calculateCompletionTime(duration, unit)` at clock reading `now`, with
      `duration` `None` for NaN: no completion for NaN or a non-positive
      duration, otherwise the `MM/DD HH:MM` reading of the later instant, or
      the NaN text when that instant lies outside the range of `Date`. */
  function CalculateCompletionTime(duration: Option<int>, unit: string, now: int, local: int -> LocalFields)
    : (r: Option<string>)
    ensures r.None? <==> duration.None? || duration.value <= 0
  {
    if duration.None? || duration.value <= 0 then None
    else
      var later := Later(now, duration.value, unit);
      if InDateRange(now) && InDateRange(later) then Some(FormatStamp(local(later)))
      else Some(InvalidStamp)
  }

  /** A completion text reads back as the local time `duration` minutes,
      hours or days after `now`, or as `now` itself for any other unit, as
      long as both instants are dates; otherwise it is the NaN text, which
      reads as no time at all. */
  lemma CalculateCompletionTimeReads(duration: int, unit: string, now: int, local: int -> LocalFields)
    requires duration > 0
    ensures var r := CalculateCompletionTime(Some(duration), unit, now, local).value;
      && (ReadStamp(r).Some? <==> InDateRange(now) && InDateRange(Later(now, duration, unit)))
      && (ReadStamp(r).None? ==> r == InvalidStamp)
      && (unit == MinutesUnit && ReadStamp(r).Some? ==> ReadStamp(r) == Some(local(now + duration * 60000)))
      && (unit == HoursUnit && ReadStamp(r).Some? ==> ReadStamp(r) == Some(local(now + duration * 3600000)))
      && (unit == DaysUnit && ReadStamp(r).Some? ==> ReadStamp(r) == Some(local(now + duration * 86400000)))
      && (unit !in {MinutesUnit, HoursUnit, DaysUnit} && ReadStamp(r).Some? ==> ReadStamp(r) == Some(local(now)))
  {
    CompletionStampReads(duration, unit, now, local);
  }

  /** The completion text reads back as the local time `Later` gives, or is
      the text of an invalid date. */
  lemma CompletionStampReads(duration: int, unit: string, now: int, local: int -> LocalFields)
    requires duration > 0
    ensures var r := CalculateCompletionTime(Some(duration), unit, now, local).value;
      && (InDateRange(now) && InDateRange(Later(now, duration, unit)) ==> ReadStamp(r) == Some(local(Later(now, duration, unit))))
      && (!(InDateRange(now) && InDateRange(Later(now, duration, unit))) ==> r == InvalidStamp && ReadStamp(r) == None)
  {
    var later := Later(now, duration, unit);
    var r := CalculateCompletionTime(Some(duration), unit, now, local).value;
    if InDateRange(now) && InDateRange(later) {
      assert r == FormatStamp(local(later));
      FormatStampReads(local(later));
    } else {
      assert r == InvalidStamp;
      assert ReadStamp(InvalidStamp) == None by { assert !IsDigit(InvalidStamp[0]); }
    }
  }
}
