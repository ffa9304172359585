/** The monthly report's numbers, from the table to its lines (internal/store/notify.go,
    internal/notify/notifier.go): each line counts the emails created in the reported month and in
    the month before it, by the first seven characters of their timestamps. */
module MonthlyQueries {
  import opened Text
  import opened SortedTexts
  import opened TimeText
  import opened MonthFilter
  import opened Emails
  import opened MonthlyReports
  import opened Statistics

  /** MonthlyStats: the per-domain counts of a month. */
  ghost function MonthlyStats(t: Table, domains: map<nat, string>, month: nat): seq<DomainStats> {
    DomainVolume(t, domains, MonthRange(MonthText(month)))
  }

  /** Rows created in the month that have this status now. */
  function InMonth(month: nat, status: Status): Selection {
    (e: Email) => MonthText(month) <= e.createdAt && e.status == status
  }

  /** The domain has emails created in the month. */
  ghost predicate ActiveIn(t: Table, domains: map<nat, string>, month: nat, name: string) {
    exists i :: 0 <= i < |t| && MonthText(month) <= t[i].createdAt && DomainName(domains)(t[i]) == name
  }

  /** What a report should say about a domain in a month. */
  function MonthOfDomain(t: Table, domains: map<nat, string>, month: nat, name: string): DomainStats {
    DomainStats(name, CountIn(t, InMonth(month, Sent), DomainName(domains), name),
                CountIn(t, InMonth(month, Failed), DomainName(domains), name))
  }

  ghost function MonthIfActive(t: Table, domains: map<nat, string>, month: nat, name: string): Option<DomainStats> {
    if ActiveIn(t, domains, month, name) then Some(MonthOfDomain(t, domains, month, name)) else None
  }

  lemma MonthTextParses(month: nat)
    requires month < END_MONTH
    ensures ParseMonth(MonthText(month)) == Some(month)
  {
    var (y, m) := (Pad(month / 12, 4), Pad(month % 12 + 1, 2));
    assert Pow10(4) == 10_000 && Pow10(2) == 100;
    PadReads(month / 12, 4);
    PadReads(month % 12 + 1, 2);
    var text := MonthText(month);
    assert text[0..4] == y && text[5..7] == m && text[4] == '-';
    assert month / 12 * 12 + month % 12 == month;
  }

  lemma RowInMonth(t: Table, month: nat, i: nat)
    requires Stamped(t) && i < |t| && month + 1 < END_MONTH
    ensures InRange(t[i].createdAt, MonthRange(MonthText(month))) <==> MonthText(month) <= t[i].createdAt
  {
    hide InRange, MonthRange, MonthText;
    MonthTextParses(month);
    assert IsStamp(t[i].createdAt);
    RangeIsPrefix(MonthText(month), t[i].createdAt);
  }

  lemma {:induction false} SameCount(t: Table, a: Selection, b: Selection, group: Grouping, key: string)
    requires forall i :: 0 <= i < |t| ==> a(t[i]) == b(t[i])
    ensures CountIn(t, a, group, key) == CountIn(t, b, group, key)
  {
    if t != [] {
      SameCount(t[..|t| - 1], a, b, group, key);
    }
  }

  lemma CountsOfMonth(t: Table, domains: map<nat, string>, month: nat, status: Status, name: string)
    requires Stamped(t) && month + 1 < END_MONTH
    ensures CountIn(t, CreatedWith(MonthRange(MonthText(month)), status), DomainName(domains), name)
         == CountIn(t, InMonth(month, status), DomainName(domains), name)
  {
    hide InRange, MonthRange, MonthText, Stamped;
    var (a, b) := (CreatedWith(MonthRange(MonthText(month)), status), InMonth(month, status));
    forall i | 0 <= i < |t| ensures a(t[i]) == b(t[i]) {
      RowInMonth(t, month, i);
    }
    SameCount(t, a, b, DomainName(domains), name);
  }

  lemma GroupsOfMonth(t: Table, domains: map<nat, string>, month: nat, name: string)
    requires Stamped(t) && month + 1 < END_MONTH
    ensures name in SortedKeys(Groups(t, Created(MonthRange(MonthText(month))), DomainName(domains)))
       <==> ActiveIn(t, domains, month, name)
  {
    hide InRange, MonthRange, MonthText, Stamped, DomainName;
    var groups := Groups(t, Created(MonthRange(MonthText(month))), DomainName(domains));
    forall i | 0 <= i < |t|
      ensures InRange(t[i].createdAt, MonthRange(MonthText(month))) <==> MonthText(month) <= t[i].createdAt
    {
      RowInMonth(t, month, i);
    }
    assert name in groups <==> ActiveIn(t, domains, month, name);
  }

  lemma {:induction false} LookupNamed(s: seq<DomainStats>, names: seq<string>, entry: DomainStats)
    requires |s| == |names| && forall i :: 0 <= i < |s| ==> s[i].name == names[i] && (names[i] == entry.name ==> s[i] == entry)
    ensures Lookup(s, entry.name) == if entry.name in names then Some(entry) else None
  {
    if s != [] {
      LookupNamed(s[..|s| - 1], names[..|names| - 1], entry);
      assert names == names[..|names| - 1] + [names[|names| - 1]];
    }
  }

  /** The query gives, for each domain active in the month, the emails created in it by the month
      text at the start of their timestamp, and nothing for other domains. */
  lemma MonthlyStatsSay(t: Table, domains: map<nat, string>, month: nat, name: string)
    requires Stamped(t) && month + 1 < END_MONTH
    ensures Lookup(MonthlyStats(t, domains, month), name) == MonthIfActive(t, domains, month, name)
  {
    hide MonthText, MonthRange, Stamped, InMonth, ActiveIn, CreatedWith, DomainName, Groups;
    var r := MonthRange(MonthText(month));
    var names := SortedKeys(Groups(t, Created(r), DomainName(domains)));
    CountsOfMonth(t, domains, month, Sent, name);
    CountsOfMonth(t, domains, month, Failed, name);
    GroupsOfMonth(t, domains, month, name);
    LookupNamed(MonthlyStats(t, domains, month), names, MonthOfDomain(t, domains, month, name));
  }

  lemma MonthlyNamesDistinct(t: Table, domains: map<nat, string>, month: nat)
    ensures NamesDistinct(MonthlyStats(t, domains, month))
  {
    DomainsConserve(t, domains, MonthRange(MonthText(month)));
  }

  lemma {:induction false} LookupOwn(s: seq<DomainStats>, i: nat)
    requires NamesDistinct(s) && i < |s|
    ensures Lookup(s, s[i].name) == Some(s[i])
  {
    if i < |s| - 1 {
      LookupOwn(s[..|s| - 1], i);
    }
  }

  /** What a line must say, end to end. */
  ghost predicate LineIsRight(t: Table, domains: map<nat, string>, month: nat, before: Option<nat>, l: Line)
  {
    match l
    case Active(stats, was) =>
      && MonthIfActive(t, domains, month, stats.name) == Some(stats)
      && was == (if before.Some? then MonthIfActive(t, domains, before.value, stats.name) else None)
    case WentQuiet(was) =>
      && MonthIfActive(t, domains, month, was.name) == None
      && before.Some? && MonthIfActive(t, domains, before.value, was.name) == Some(was)
    case NoActivity =>
      forall name :: MonthIfActive(t, domains, month, name) == None
        && (before.Some? ==> MonthIfActive(t, domains, before.value, name) == None)
  }

  /** The counts of the month compared with; none if that query failed. */
  ghost function ComparedStats(t: Table, domains: map<nat, string>, before: Option<nat>): seq<DomainStats> {
    if before.Some? then MonthlyStats(t, domains, before.value) else []
  }

  lemma {:induction false} QuietFrom(stats: seq<DomainStats>, prev: seq<DomainStats>, i: nat)
    requires i < |QuietLines(stats, prev)|
    ensures QuietLines(stats, prev)[i].WentQuiet? && QuietLines(stats, prev)[i].was in prev
    ensures Lookup(stats, QuietLines(stats, prev)[i].was.name).None?
  {
    if i < |QuietLines(stats, prev[..|prev| - 1])| {
      QuietFrom(stats, prev[..|prev| - 1], i);
    }
  }

  lemma Compared(t: Table, domains: map<nat, string>, before: Option<nat>, name: string)
    requires Stamped(t) && (before.Some? ==> before.value + 1 < END_MONTH)
    ensures Lookup(ComparedStats(t, domains, before), name)
         == if before.Some? then MonthIfActive(t, domains, before.value, name) else None
    ensures NamesDistinct(ComparedStats(t, domains, before))
  {
    hide Stamped, MonthIfActive;
    if before.Some? {
      MonthlyStatsSay(t, domains, before.value, name);
      MonthlyNamesDistinct(t, domains, before.value);
    }
  }

  /** Every line of a report tells the true counts of its domain in the reported month and in the
      month compared with. */
  lemma LinesAreRight(t: Table, domains: map<nat, string>, month: nat, before: Option<nat>, k: nat)
    requires Stamped(t) && month + 1 < END_MONTH && (before.Some? ==> before.value + 1 < END_MONTH)
    requires k < |ReportLines(MonthlyStats(t, domains, month), ComparedStats(t, domains, before))|
    ensures LineIsRight(t, domains, month, before, ReportLines(MonthlyStats(t, domains, month), ComparedStats(t, domains, before))[k])
  {
    hide Stamped, MonthIfActive, MonthlyStats, ComparedStats;
    var (stats, prev) := (MonthlyStats(t, domains, month), ComparedStats(t, domains, before));
    MonthlyNamesDistinct(t, domains, month);
    forall name
      ensures Lookup(stats, name) == MonthIfActive(t, domains, month, name)
      ensures Lookup(prev, name) == if before.Some? then MonthIfActive(t, domains, before.value, name) else None
      ensures NamesDistinct(prev)
    {
      MonthlyStatsSay(t, domains, month, name);
      Compared(t, domains, before, name);
    }
    assert Lookup(prev, "") == Lookup(prev, "");
    if k < |stats| {
      LookupOwn(stats, k);
    } else if k - |stats| < |QuietLines(stats, prev)| {
      QuietFrom(stats, prev, k - |stats|);
      var was := QuietLines(stats, prev)[k - |stats|].was;
      var i :| 0 <= i < |prev| && prev[i] == was;
      LookupOwn(prev, i);
    } else {
      assert stats == [] && prev == [];
    }
  }

  /** And every domain active in either month has exactly one. */
  lemma ActiveDomainsHaveOneLine(t: Table, domains: map<nat, string>, month: nat, before: Option<nat>, name: string)
    requires Stamped(t) && month + 1 < END_MONTH && (before.Some? ==> before.value + 1 < END_MONTH)
    ensures Mentions(ReportLines(MonthlyStats(t, domains, month), ComparedStats(t, domains, before)), name)
         == if ActiveIn(t, domains, month, name) || (before.Some? && ActiveIn(t, domains, before.value, name)) then 1 else 0
  {
    hide Stamped, ActiveIn, MonthlyStats, ComparedStats, ReportLines;
    MonthlyNamesDistinct(t, domains, month);
    MonthlyStatsSay(t, domains, month, name);
    Compared(t, domains, before, name);
    OneLinePerDomain(MonthlyStats(t, domains, month), ComparedStats(t, domains, before), name);
  }
}
