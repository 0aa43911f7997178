/** The record bookkeeping of `process_multiple_projects`
    (scraping.py:37-308). Every browser step of one loop index (re-syncing
    to the list page, reading the card, opening the details page, switching
    to the promoter tab, going back) is reduced to whether it succeeded,
    and the two scraped sections to the label/value pairs the page offers;
    `ItemOutcome` gathers these for one index. What remains is the loop's
    own logic: which fields the row gets, when a row is appended, and when
    the loop stops. */
module Scraper {
  import opened Wrappers
  import opened Text
  import opened Filename
  import opened FieldValue

  /** The seven columns of `csv_headers` (scraping.py:60-68). */
  datatype Column =
    | SanitizedIdentifier | RawName | ProjectName | ProjectType | ReraRegNo
    | PromoterCompanyName | PromoterRegistrationNo

  /** The header text of each column in the written table. */
  function HeaderName(c: Column): string {
    match c
    case SanitizedIdentifier => "Sanitized_Project_Identifier_From_Card"
    case RawName => "Raw_Project_Name_From_Card"
    case ProjectName => "Project_Name_Scraped_From_Details_Page"
    case ProjectType => "Project_Type_Scraped_From_Details_Page"
    case ReraRegNo => "RERA_Reg_No_Scraped_From_Details_Page"
    case PromoterCompanyName => "Promoter_Company_Name_Scraped"
    case PromoterRegistrationNo => "Promoter_Registration_No_Scraped"
  }

  /** The columns in header order. */
  const CsvHeaders: seq<Column> := [
    SanitizedIdentifier, RawName, ProjectName, ProjectType,
    ReraRegNo, PromoterCompanyName, PromoterRegistrationNo
  ]

  /** Every column, as a set: the keys each row has. */
  const HeaderSet: set<Column> := set c | c in CsvHeaders

  /** The label texts the details stage asks for (scraping.py:204-206). */
  const ProjectNameLabel: string := "Project Name"
  const ProjectTypeLabel: string := "Project Type"
  const ReraRegNoLabel: string := "RERA Regd. No."

  /** The label texts the promoter stage asks for (scraping.py:255-256). */
  const CompanyNameLabel: string := "Company Name"
  const RegistrationNoLabel: string := "Registration No."

  /** One row: `current_project_data_dict`, column to value. */
  type Record = map<Column, string>

  /** A scraped section as the page shows it: the normalized text of each
      `<label>` mapped to the raw text of the `<strong>` that follows it. */
  type Section = map<string, string>

  /** What the browser did at one loop index, stage by stage. A stage after
      one that failed is never reached, and its field is then irrelevant. */
  datatype ItemOutcome = ItemOutcome(
    listReady: bool,                   // :125-135 on the list page, cards present
    cardCount: nat,                    // :138 number of cards found
    cardTitle: Option<string>,         // :152-154 raw card title; None: no `h5.card-title`
    detailsPageOpened: bool,           // :169-192 scroll, click, details header visible;
                                       //   false also for a screenshot at :213 that raises
    detailsSection: Option<Section>,   // :200-202 None: the container never became visible
    promoterTabOpened: bool,           // :222-245 tab clicked, promoter content present;
                                       //   false also for a screenshot at :262 that raises
    promoterSection: Option<Section>,  // :251-253 None: the container never became visible
    returnedToList: bool,              // :271-278 back to the list page, cards present
    recovered: bool                    // :297-304 reloading the list page after an error worked
  )

  /** The row every index starts from (scraping.py:119): all seven columns,
      each "N/A". */
  function InitialRecord(): (r: Record)
    ensures r.Keys == HeaderSet
    ensures forall h :: h in r ==> r[h] == NotAvailable
  {
    map h | h in HeaderSet :: NotAvailable
  }

  /** `get_field_value(section, label)`: the query is answered from the
      section's label/value pairs. */
  function Lookup(section: Section, labelText: string): (found: Option<string>)
    ensures found.Some? <==> labelText in section
    ensures found.Some? ==> found.value == section[labelText]
  {
    if labelText in section then Some(section[labelText]) else None
  }

  /** The identifier used when the card has no usable title (scraping.py:114). */
  function ProjectLoopIdentifier(i: nat): string {
    "Project_Loop_" + DecimalString(i + 1)
  }

  /** The identifier and raw name a card yields. */
  datatype CardName = CardName(identifier: string, rawName: string)

  /** scraping.py:114-116, 150-161: a card title that is non-empty once
      stripped gives the raw name, and its sanitized form is the identifier;
      otherwise the identifier is positional and the raw name stays "N/A". */
  function NameFromCard(i: nat, title: Option<string>): (c: CardName)
    ensures title.Some? && !AllWhitespace(title.value) ==>
      c.rawName == Strip(title.value) && c.rawName != [] && IsTrimmed(c.rawName) &&
      c.identifier == SanitizeFilename(c.rawName) && IsSanitized(c.identifier)
    ensures title.None? || AllWhitespace(title.value) ==>
      c == CardName(ProjectLoopIdentifier(i), NotAvailable)
  {
    match title
    case None => CardName(ProjectLoopIdentifier(i), NotAvailable)
    case Some(raw) =>
      var name := Strip(raw);
      if name != [] then CardName(SanitizeFilename(name), name)
      else CardName(ProjectLoopIdentifier(i), NotAvailable)
  }

  /** The details stage (scraping.py:196-215): with the container found, the
      three details columns get `get_field_value` of their labels; with it
      missing, the row is left exactly as it was. */
  function WithDetails(rec: Record, section: Option<Section>): Record
  {
    match section
    case None => rec
    case Some(s) =>
      rec[ProjectName := GetFieldValue(Lookup(s, ProjectNameLabel))]
         [ProjectType := GetFieldValue(Lookup(s, ProjectTypeLabel))]
         [ReraRegNo := GetFieldValue(Lookup(s, ReraRegNoLabel))]
  }

  /** The promoter stage (scraping.py:249-264), in the same way. */
  function WithPromoter(rec: Record, section: Option<Section>): Record
  {
    match section
    case None => rec
    case Some(s) =>
      rec[PromoterCompanyName := GetFieldValue(Lookup(s, CompanyNameLabel))]
         [PromoterRegistrationNo := GetFieldValue(Lookup(s, RegistrationNoLabel))]
  }

  /** The list has no card for index `i` (scraping.py:141-144). */
  predicate Exhausted(i: nat, o: ItemOutcome) {
    o.listReady && i >= o.cardCount
  }

  /** Index `i` got as far as the append of scraping.py:267. */
  predicate ReachedAppend(i: nat, o: ItemOutcome) {
    o.listReady && i < o.cardCount && o.detailsPageOpened && o.promoterTabOpened
  }

  /** Index `i` ended in the item-level handler of scraping.py:280-308. */
  predicate ItemFailed(i: nat, o: ItemOutcome) {
    !Exhausted(i, o) && !(ReachedAppend(i, o) && o.returnedToList)
  }

  /** The row once the card has been read (scraping.py:164-165). */
  function NamedRecord(card: CardName): Record
  {
    InitialRecord()[SanitizedIdentifier := card.identifier][RawName := card.rawName]
  }

  /** `current_project_data_dict` as it stands when index `i` is finished. */
  function ItemRecord(i: nat, o: ItemOutcome): Record {
    if !o.listReady || i >= o.cardCount then InitialRecord()
    else
      var named := NamedRecord(NameFromCard(i, o.cardTitle));
      if !o.detailsPageOpened then named
      else
        var detailed := WithDetails(named, o.detailsSection);
        if !o.promoterTabOpened then detailed else WithPromoter(detailed, o.promoterSection)
  }

  /** What one index contributes: the rows it appends, and whether the loop
      stops after it. */
  datatype Step = Step(rows: seq<Record>, halts: bool)

  function ItemStep(i: nat, o: ItemOutcome): Step {
    if Exhausted(i, o) then Step([], true)
    else
      var rec := ItemRecord(i, o);
      var rows := if ReachedAppend(i, o) && !o.returnedToList then [rec, rec] else [rec];
      Step(rows, ItemFailed(i, o) && !o.recovered)
  }

  /** The rows the loop appends from index `i` on, for `range(n)`. */
  function RunFrom(env: seq<ItemOutcome>, i: nat, n: int): seq<Record>
    requires n <= |env|
    decreases n - i
  {
    if i >= n then []
    else
      var step := ItemStep(i, env[i]);
      step.rows + (if step.halts then [] else RunFrom(env, i + 1, n))
  }

  lemma RunFromStep(env: seq<ItemOutcome>, i: nat, n: int)
    requires i < n <= |env|
    ensures RunFrom(env, i, n) ==
      ItemStep(i, env[i]).rows + (if ItemStep(i, env[i]).halts then [] else RunFrom(env, i + 1, n))
  {
  }

  /** `all_projects_scraped_data` once the loop is over. */
  function Run(env: seq<ItemOutcome>, n: int): seq<Record>
    requires n <= |env|
  {
    RunFrom(env, 0, n)
  }

  /** `process_multiple_projects` up to the table it would write
      (scraping.py:58, 70-80, 112-308): `listLoaded` says whether the first
      load of the list page worked, and the browser's behaviour at loop
      index `i` is `env[i]`; returns `all_projects_scraped_data`. */
  method ProcessMultipleProjects(listLoaded: bool, env: seq<ItemOutcome>, numProjects: int := 6)
    returns (scraped: seq<Record>)
    requires numProjects <= |env|
    ensures scraped == if listLoaded then Run(env, numProjects) else []
    ensures forall k :: 0 <= k < |scraped| ==> scraped[k].Keys == HeaderSet
    ensures |scraped| <= 2 * (if numProjects < 0 then 0 else numProjects)
  {
    if !listLoaded {
      // The exception leaves the outer `try` before the loop (scraping.py:333).
      return [];
    }
    scraped := ProjectLoop(env, numProjects);
    RunShape(env, numProjects);
  }

  /** The `for i in range(num_projects)` loop (scraping.py:112-308), run on
      an empty `all_projects_scraped_data`. */
  method ProjectLoop(env: seq<ItemOutcome>, numProjects: int) returns (scraped: seq<Record>)
    requires numProjects <= |env|
    ensures scraped == Run(env, numProjects)
  {
    scraped := [];
    var i: nat := 0;
    while i < numProjects
      invariant scraped + RunFrom(env, i, numProjects) == Run(env, numProjects)
    {
      ghost var before := scraped;
      var stop;
      scraped, stop := ProcessProject(i, env[i], scraped);
      RunFromAfterStep(env, i, numProjects, before, scraped, stop);
      if stop {
        break;
      }
      i := i + 1;
    }
  }

  /** One loop index in terms of the remaining run: whatever index `i`
      appends, followed by the rest (none if it halts), is what remained. */
  lemma RunFromAfterStep(env: seq<ItemOutcome>, i: nat, n: int, before: seq<Record>, after: seq<Record>, stop: bool)
    requires i < n <= |env|
    requires after == before + ItemStep(i, env[i]).rows && stop == ItemStep(i, env[i]).halts
    ensures stop ==> after == before + RunFrom(env, i, n)
    ensures !stop ==> after + RunFrom(env, i + 1, n) == before + RunFrom(env, i, n)
  {
    RunFromStep(env, i, n);
    AppendRest(before, ItemStep(i, env[i]).rows, if stop then [] else RunFrom(env, i + 1, n));
  }

  lemma AppendRest(before: seq<Record>, rows: seq<Record>, rest: seq<Record>)
    ensures (before + rows) + rest == before + (rows + rest)
    ensures rows + [] == rows
  {
  }

  /** Every row of a run has the seven columns, and there are at most two
      rows per requested index. */
  lemma RunShape(env: seq<ItemOutcome>, n: int)
    requires n <= |env|
    ensures forall k :: 0 <= k < |Run(env, n)| ==> Run(env, n)[k].Keys == HeaderSet
    ensures |Run(env, n)| <= 2 * (if n < 0 then 0 else n)
  {
    RunRecordsHaveHeaderKeys(env, 0, n);
    RowAccounting(env, 0, n);
  }

  /** One pass of the loop body (scraping.py:113-308) at index `i`: builds
      `current_project_data_dict` field by field, appends it to `scraped`
      where the source does, and says whether the loop breaks. */
  method ProcessProject(i: nat, o: ItemOutcome, scraped: seq<Record>) returns (result: seq<Record>, stop: bool)
    ensures result == scraped + ItemStep(i, o).rows
    ensures stop == ItemStep(i, o).halts
  {
    result := scraped;
    var current := InitialRecord();
    var failed := false;
    ghost var appended := false;
    if !o.listReady {
      failed := true;
    } else if i >= o.cardCount {
      return result, true;
    } else {
      var card := NameFromCard(i, o.cardTitle);
      current := current[SanitizedIdentifier := card.identifier];
      current := current[RawName := card.rawName];
      ghost var named := NamedRecord(card);
      if !o.detailsPageOpened {
        failed := true;
      } else {
        if o.detailsSection.Some? {
          var section := o.detailsSection.value;
          current := current[ProjectName := GetFieldValue(Lookup(section, ProjectNameLabel))];
          current := current[ProjectType := GetFieldValue(Lookup(section, ProjectTypeLabel))];
          current := current[ReraRegNo := GetFieldValue(Lookup(section, ReraRegNoLabel))];
        }
        ghost var detailed := WithDetails(named, o.detailsSection);
        assert current == detailed;
        if !o.promoterTabOpened {
          failed := true;
        } else {
          if o.promoterSection.Some? {
            var section := o.promoterSection.value;
            current := current[PromoterCompanyName := GetFieldValue(Lookup(section, CompanyNameLabel))];
            current := current[PromoterRegistrationNo := GetFieldValue(Lookup(section, RegistrationNoLabel))];
          }
          assert current == WithPromoter(detailed, o.promoterSection);
          result := result + [current];
          appended := true;
          if !o.returnedToList {
            failed := true;
          }
        }
      }
    }
    ghost var rec := ItemRecord(i, o);
    assert current == rec;
    assert appended == ReachedAppend(i, o) && failed == ItemFailed(i, o);
    assert ItemStep(i, o) == Step(if appended && failed then [rec, rec] else [rec], failed && !o.recovered);
    stop := false;
    if failed {
      assert appended ==> result + [current] == scraped + [rec, rec];
      assert !appended ==> result + [current] == scraped + [rec];
      result := result + [current];
      stop := !o.recovered;
    } else {
      assert result == scraped + [rec];
    }
  }

  // ---------------------------------------------------------------------
  // Properties of the row bookkeeping.

  /** `csv_headers` names each of the seven columns once, so every row has
      exactly seven fields. */
  lemma HeaderCount()
    ensures |HeaderSet| == |CsvHeaders| == 7
    ensures forall c: Column :: c in HeaderSet
  {
    assert HeaderSet == {SanitizedIdentifier, RawName, ProjectName, ProjectType,
                         ReraRegNo, PromoterCompanyName, PromoterRegistrationNo};
    forall c: Column ensures c in HeaderSet {
      match c
      case SanitizedIdentifier =>
      case RawName =>
      case ProjectName =>
      case ProjectType =>
      case ReraRegNo =>
      case PromoterCompanyName =>
      case PromoterRegistrationNo =>
    }
  }

  /** Each column is written under its own header text. */
  lemma HeaderNameInjective(c: Column, d: Column)
    requires HeaderName(c) == HeaderName(d)
    ensures c == d
  {
    var h := HeaderName(c);
    assert |h| == |HeaderName(d)| && h[|h| - 4] == HeaderName(d)[|h| - 4];
  }

  /** The fields of the row of index `i`, column by column: the card's
      names once a card was reached, each details column the defaulted
      lookup of its label once the details container was found, each
      promoter column likewise once the promoter tab opened and its
      container was found, and "N/A" everywhere else. */
  lemma ItemRecordFields(i: nat, o: ItemOutcome)
    ensures ItemRecord(i, o).Keys == HeaderSet
    ensures var r := ItemRecord(i, o);
      var carded := o.listReady && i < o.cardCount;
      var card := NameFromCard(i, o.cardTitle);
      var details := carded && o.detailsPageOpened && o.detailsSection.Some?;
      var promoter := carded && o.detailsPageOpened && o.promoterTabOpened && o.promoterSection.Some?;
      r[SanitizedIdentifier] == (if carded then card.identifier else NotAvailable) &&
      r[RawName] == (if carded then card.rawName else NotAvailable) &&
      r[ProjectName] == (if details then GetFieldValue(Lookup(o.detailsSection.value, ProjectNameLabel)) else NotAvailable) &&
      r[ProjectType] == (if details then GetFieldValue(Lookup(o.detailsSection.value, ProjectTypeLabel)) else NotAvailable) &&
      r[ReraRegNo] == (if details then GetFieldValue(Lookup(o.detailsSection.value, ReraRegNoLabel)) else NotAvailable) &&
      r[PromoterCompanyName] == (if promoter then GetFieldValue(Lookup(o.promoterSection.value, CompanyNameLabel)) else NotAvailable) &&
      r[PromoterRegistrationNo] == (if promoter then GetFieldValue(Lookup(o.promoterSection.value, RegistrationNoLabel)) else NotAvailable)
  {
    if o.listReady && i < o.cardCount {
      var named := NamedRecord(NameFromCard(i, o.cardTitle));
      NamedRecordFields(NameFromCard(i, o.cardTitle));
      if o.detailsPageOpened {
        WithDetailsFields(named, o.detailsSection);
        if o.promoterTabOpened {
          WithPromoterFields(WithDetails(named, o.detailsSection), o.promoterSection);
        }
      }
    }
  }

  /** After the card stage the row holds the card's two names and "N/A"
      in the five scraped columns. */
  lemma NamedRecordFields(card: CardName)
    ensures var r := NamedRecord(card);
      r.Keys == HeaderSet &&
      r[SanitizedIdentifier] == card.identifier && r[RawName] == card.rawName &&
      r[ProjectName] == NotAvailable && r[ProjectType] == NotAvailable && r[ReraRegNo] == NotAvailable &&
      r[PromoterCompanyName] == NotAvailable && r[PromoterRegistrationNo] == NotAvailable
  {
  }

  /** The details stage touches the three details columns only. */
  lemma WithDetailsFields(rec: Record, section: Option<Section>)
    requires rec.Keys == HeaderSet
    ensures var r := WithDetails(rec, section);
      r.Keys == HeaderSet &&
      r[SanitizedIdentifier] == rec[SanitizedIdentifier] && r[RawName] == rec[RawName] &&
      r[PromoterCompanyName] == rec[PromoterCompanyName] &&
      r[PromoterRegistrationNo] == rec[PromoterRegistrationNo] &&
      (section.None? ==> r == rec) &&
      (section.Some? ==>
        r[ProjectName] == GetFieldValue(Lookup(section.value, ProjectNameLabel)) &&
        r[ProjectType] == GetFieldValue(Lookup(section.value, ProjectTypeLabel)) &&
        r[ReraRegNo] == GetFieldValue(Lookup(section.value, ReraRegNoLabel)))
  {
  }

  /** The promoter stage touches the two promoter columns only. */
  lemma WithPromoterFields(rec: Record, section: Option<Section>)
    requires rec.Keys == HeaderSet
    ensures var r := WithPromoter(rec, section);
      r.Keys == HeaderSet &&
      r[SanitizedIdentifier] == rec[SanitizedIdentifier] && r[RawName] == rec[RawName] &&
      r[ProjectName] == rec[ProjectName] && r[ProjectType] == rec[ProjectType] &&
      r[ReraRegNo] == rec[ReraRegNo] &&
      (section.None? ==> r == rec) &&
      (section.Some? ==>
        r[PromoterCompanyName] == GetFieldValue(Lookup(section.value, CompanyNameLabel)) &&
        r[PromoterRegistrationNo] == GetFieldValue(Lookup(section.value, RegistrationNoLabel)))
  {
  }

  /** Whatever happened at index `i`, its row has exactly the seven columns. */
  lemma ItemRecordHasHeaderKeys(i: nat, o: ItemOutcome)
    ensures ItemRecord(i, o).Keys == HeaderSet
  {
    ItemRecordFields(i, o);
  }

  lemma {:induction false} RunRecordsHaveHeaderKeys(env: seq<ItemOutcome>, i: nat, n: int)
    requires n <= |env|
    ensures forall k :: 0 <= k < |RunFrom(env, i, n)| ==> RunFrom(env, i, n)[k].Keys == HeaderSet
    decreases n - i
  {
    if i < n {
      ItemRecordHasHeaderKeys(i, env[i]);
      var step := ItemStep(i, env[i]);
      if !step.halts {
        RunRecordsHaveHeaderKeys(env, i + 1, n);
      }
    }
  }

  /** Number of indices from `i` on that the loop attempts: reached and not
      stopped by the card-count check. */
  function AttemptedFrom(env: seq<ItemOutcome>, i: nat, n: int): nat
    requires n <= |env|
    decreases n - i
  {
    if i >= n || Exhausted(i, env[i]) then 0
    else 1 + (if ItemStep(i, env[i]).halts then 0 else AttemptedFrom(env, i + 1, n))
  }

  /** Number of attempted indices from `i` on whose row is appended twice:
      the return to the list after scraping.py:267 failed. */
  function DoubledFrom(env: seq<ItemOutcome>, i: nat, n: int): nat
    requires n <= |env|
    decreases n - i
  {
    if i >= n || Exhausted(i, env[i]) then 0
    else
      (if ReachedAppend(i, env[i]) && !env[i].returnedToList then 1 else 0) +
      (if ItemStep(i, env[i]).halts then 0 else DoubledFrom(env, i + 1, n))
  }

  /** Row accounting: one row per attempted index, plus one more per index
      whose return to the list failed; never more than two per index. */
  lemma {:induction false} RowAccounting(env: seq<ItemOutcome>, i: nat, n: int)
    requires n <= |env|
    ensures |RunFrom(env, i, n)| == AttemptedFrom(env, i, n) + DoubledFrom(env, i, n)
    ensures DoubledFrom(env, i, n) <= AttemptedFrom(env, i, n) <= (if i < n then n - i else 0)
    decreases n - i
  {
    if i < n && !ItemStep(i, env[i]).halts {
      RowAccounting(env, i + 1, n);
    }
  }

  /** With no failed return to the list, the rows match the attempted
      indices one to one. */
  lemma OneRowPerAttempt(env: seq<ItemOutcome>, n: int)
    requires n <= |env|
    requires forall j :: 0 <= j < n ==> !(ReachedAppend(j, env[j]) && !env[j].returnedToList)
    ensures |Run(env, n)| == AttemptedFrom(env, 0, n)
  {
    RowAccounting(env, 0, n);
    NoDoubles(env, 0, n);
  }

  lemma {:induction false} NoDoubles(env: seq<ItemOutcome>, i: nat, n: int)
    requires n <= |env|
    requires forall j :: i <= j < n ==> !(ReachedAppend(j, env[j]) && !env[j].returnedToList)
    ensures DoubledFrom(env, i, n) == 0
    decreases n - i
  {
    if i < n && !Exhausted(i, env[i]) && !ItemStep(i, env[i]).halts {
      NoDoubles(env, i + 1, n);
    }
  }

  /** Index `j` of a list that shows `cards` cards does not disturb the
      count: the re-sync works, no return to the list fails after the
      append, and any item-level failure is recovered from. */
  predicate StaysOnCount(o: ItemOutcome, cards: nat) {
    o.listReady && o.cardCount == cards && o.recovered &&
    !(o.detailsPageOpened && o.promoterTabOpened && !o.returnedToList)
  }

  /** When the list always shows `cards` cards and no index is doubled or
      halts on a failed recovery, the run writes min(n, cards) rows, one per
      card reached, however many section or item failures happen on the way;
      with 4 cards and n = 6 the loop stops at index 4 with 4 rows. */
  lemma {:induction false} RowsWhenAllSucceed(env: seq<ItemOutcome>, i: nat, n: int, cards: nat)
    requires n <= |env|
    requires forall j :: 0 <= j < n ==> StaysOnCount(env[j], cards)
    ensures |RunFrom(env, i, n)| == (if i < n && i < cards then (if n < cards then n else cards) - i else 0)
    decreases n - i
  {
    if i < n && i < cards {
      RowsWhenAllSucceed(env, i + 1, n, cards);
    }
  }

  /** An index whose every stage works, return to the list included, appends
      its row once (scraping.py:267) and the loop goes on. */
  lemma SuccessfulItemAppendsOnce(i: nat, o: ItemOutcome)
    requires ReachedAppend(i, o) && o.returnedToList
    ensures ItemStep(i, o) == Step([ItemRecord(i, o)], false)
  {
  }

  /** The card-count check (scraping.py:141-144) comes after the re-sync
      (scraping.py:125-135): a re-sync that fails at an index past the last
      card still appends a blank row, and the loop goes on when recovery
      works. */
  lemma ResyncFailurePastLastCard(i: nat, o: ItemOutcome)
    requires !o.listReady && o.recovered && i >= o.cardCount
    ensures ItemStep(i, o) == Step([InitialRecord()], false)
  {
  }

  /** So with one card and two indices, a flaky re-sync at index 1 gives two
      rows, not one. */
  lemma FlakyResyncExample(good: ItemOutcome, flaky: ItemOutcome)
    requires ReachedAppend(0, good) && good.returnedToList && good.cardCount == 1
    requires !flaky.listReady && flaky.recovered && flaky.cardCount == 1
    ensures |Run([good, flaky], 2)| == 2
  {
    var env := [good, flaky];
    SuccessfulItemAppendsOnce(0, good);
    ResyncFailurePastLastCard(1, flaky);
    RunFromStep(env, 0, 2);
    RunFromStep(env, 1, 2);
  }

  /** Once index `j` stops the loop (no card for it, or a failed recovery
      navigation), nothing that happens at later indices matters: the rows
      are those of the run cut off after `j`. */
  lemma {:induction false} HaltIgnoresLaterIndices(env: seq<ItemOutcome>, i: nat, j: nat, n: int)
    requires i <= j < n <= |env|
    requires ItemStep(j, env[j]).halts
    ensures RunFrom(env, i, n) == RunFrom(env[..j + 1], i, j + 1)
    decreases j - i
  {
    var cut := env[..j + 1];
    assert cut[i] == env[i];
    var step := ItemStep(i, env[i]);
    RunFromStep(env, i, n);
    RunFromStep(cut, i, j + 1);
    if step.halts {
      assert RunFrom(env, i, n) == step.rows == RunFrom(cut, i, j + 1);
    } else {
      assert i < j;
      HaltIgnoresLaterIndices(env, i + 1, j, n);
      assert RunFrom(env, i + 1, n) == RunFrom(cut, i + 1, j + 1);
    }
  }

  /** A card-count stop appends nothing for that index or any later one. */
  lemma ExhaustedAppendsNothing(env: seq<ItemOutcome>, i: nat, n: int)
    requires i < n <= |env|
    requires Exhausted(i, env[i])
    ensures RunFrom(env, i, n) == []
  {
  }

  /** Rows appear in index order: asking for more indices only appends
      rows after the ones a shorter run has. */
  lemma {:induction false} RunPrefix(env: seq<ItemOutcome>, i: nat, m: int, n: int)
    requires m <= n <= |env|
    ensures RunFrom(env, i, m) <= RunFrom(env, i, n)
    decreases n - i
  {
    if i < m {
      var step := ItemStep(i, env[i]);
      if !step.halts {
        RunPrefix(env, i + 1, m, n);
      }
    }
  }

  /** The double append (scraping.py:267 and :292): when the return to the
      list fails after the row was appended, the same row is appended again. */
  lemma DoubleAppendOnFailedReturn(i: nat, o: ItemOutcome)
    requires ReachedAppend(i, o) && !o.returnedToList
    ensures |ItemStep(i, o).rows| == 2
    ensures ItemStep(i, o).rows[0] == ItemStep(i, o).rows[1] == ItemRecord(i, o)
    ensures ItemStep(i, o).halts <==> !o.recovered
  {
  }

  /** An item-level failure appends the row as it stood, once, and the loop
      goes on exactly when the recovery navigation worked. */
  lemma ItemFailureAppendsPartialRow(i: nat, o: ItemOutcome)
    requires ItemFailed(i, o) && !ReachedAppend(i, o)
    ensures ItemStep(i, o).rows == [ItemRecord(i, o)]
    ensures ItemStep(i, o).halts <==> !o.recovered
  {
  }

  /** A failed re-sync to the list page (scraping.py:125-135) happens before
      the identifier is stored, so that row is all "N/A". */
  lemma ListFailureRowIsBlank(i: nat, o: ItemOutcome)
    requires !o.listReady
    ensures ItemStep(i, o).rows == [InitialRecord()]
  {
  }

  /** Once a card is reached, the row carries the card's identifier and raw
      name, whatever happens later. */
  lemma RowNamesItsCard(i: nat, o: ItemOutcome)
    requires o.listReady && i < o.cardCount
    ensures ItemRecord(i, o)[SanitizedIdentifier] == NameFromCard(i, o.cardTitle).identifier
    ensures ItemRecord(i, o)[RawName] == NameFromCard(i, o.cardTitle).rawName
  {
  }

  /** A failure inside the details section is local: the three details
      columns stay "N/A", every other column and the rest of the index
      (rows appended, whether the loop goes on) are as if it had worked.
      This holds when the handler's screenshot (scraping.py:213) succeeds;
      one that raises reaches the item handler, which is the case
      `detailsPageOpened == false`. */
  lemma DetailsFailureIsLocal(i: nat, o: ItemOutcome, s: Section)
    requires o.listReady && i < o.cardCount && o.detailsPageOpened
    ensures var lost := ItemRecord(i, o.(detailsSection := None));
            var found := ItemRecord(i, o.(detailsSection := Some(s)));
            lost.Keys == found.Keys == HeaderSet &&
            lost[ProjectName] == lost[ProjectType] == lost[ReraRegNo] == NotAvailable &&
            lost[SanitizedIdentifier] == found[SanitizedIdentifier] &&
            lost[RawName] == found[RawName] &&
            lost[PromoterCompanyName] == found[PromoterCompanyName] &&
            lost[PromoterRegistrationNo] == found[PromoterRegistrationNo]
    ensures |ItemStep(i, o.(detailsSection := None)).rows| == |ItemStep(i, o.(detailsSection := Some(s))).rows|
    ensures ItemStep(i, o.(detailsSection := None)).halts == ItemStep(i, o.(detailsSection := Some(s))).halts
  {
    ItemRecordFields(i, o.(detailsSection := None));
    ItemRecordFields(i, o.(detailsSection := Some(s)));
  }

  /** A failure inside the promoter section is local in the same way: only
      the two promoter columns differ, and they stay "N/A". This holds when
      the handler's screenshot (scraping.py:262) succeeds; one that raises is
      the case `promoterTabOpened == false`. */
  lemma PromoterFailureIsLocal(i: nat, o: ItemOutcome, s: Section)
    requires o.listReady && i < o.cardCount && o.detailsPageOpened && o.promoterTabOpened
    ensures var lost := ItemRecord(i, o.(promoterSection := None));
            var found := ItemRecord(i, o.(promoterSection := Some(s)));
            lost.Keys == found.Keys == HeaderSet &&
            lost[PromoterCompanyName] == lost[PromoterRegistrationNo] == NotAvailable &&
            lost[SanitizedIdentifier] == found[SanitizedIdentifier] &&
            lost[RawName] == found[RawName] &&
            lost[ProjectName] == found[ProjectName] &&
            lost[ProjectType] == found[ProjectType] &&
            lost[ReraRegNo] == found[ReraRegNo]
    ensures |ItemStep(i, o.(promoterSection := None)).rows| == |ItemStep(i, o.(promoterSection := Some(s))).rows|
    ensures ItemStep(i, o.(promoterSection := None)).halts == ItemStep(i, o.(promoterSection := Some(s))).halts
  {
    ItemRecordFields(i, o.(promoterSection := None));
    ItemRecordFields(i, o.(promoterSection := Some(s)));
  }

  /** Positional identifiers of different indices differ. */
  lemma ProjectLoopIdentifierInjective(i: nat, j: nat)
    requires ProjectLoopIdentifier(i) == ProjectLoopIdentifier(j)
    ensures i == j
  {
    var prefix := "Project_Loop_";
    assert ProjectLoopIdentifier(i)[|prefix|..] == DecimalString(i + 1);
    assert ProjectLoopIdentifier(j)[|prefix|..] == DecimalString(j + 1);
    ParseDecimalString(i + 1);
    ParseDecimalString(j + 1);
  }
}
