/** The limit entity: its constructors, its edits and its status, and what none of them can break. */
module LimitEntity {
  import opened Prelude
  import opened Calendar
  import opened Periods
  import opened LimitRules
  import opened Scopes
  import opened Rules

  // The text checks: what trimming does, and which names, descriptions, currencies and transaction types are allowed.
  datatype TextRules = TextRules(trim: string -> string, upper: string -> string, name: string -> bool, description: string -> bool,
                                 currency: string -> bool, transactionType: string -> bool)

  predicate ScopesOk(rules: TextRules, scopes: seq<Scope>) {
    scopes != []
    && forall s :: s in scopes ==> !IsEmpty(s) && (s.transactionType.Some? ==> rules.transactionType(s.transactionType.value))
  }

  predicate KnownType(lt: LimitType) {
    !lt.Other?
  }

  // What an edit gives; None keeps the field.
  datatype Edit = Edit(name: Option<string>, maxAmount: Option<real>, description: Option<string>, scopes: Option<seq<Scope>>,
                       timeStart: Option<TimeOfDay>, timeEnd: Option<TimeOfDay>,
                       customStart: Option<Instant>, customEnd: Option<Instant>)

  predicate GivesTerms(e: Edit) {
    e.name.Some? || e.maxAmount.Some? || e.description.Some? || e.scopes.Some?
  }

  predicate GivesTimes(e: Edit) {
    e.timeStart.Some? || e.timeEnd.Some? || e.customStart.Some? || e.customEnd.Some?
  }

  function NameError(rules: TextRules, e: Edit): Option<LimitError> {
    if e.name.Some? && !rules.name(rules.trim(e.name.value)) then Some(InvalidName) else None
  }

  function AmountError(e: Edit): Option<LimitError> {
    if e.maxAmount.Some? && e.maxAmount.value <= 0.0 then Some(InvalidMaxAmount) else None
  }

  function DescriptionError(rules: TextRules, e: Edit): Option<LimitError> {
    if e.description.Some? && !rules.description(rules.trim(e.description.value)) then Some(InvalidDescription) else None
  }

  function ScopesError(rules: TextRules, e: Edit): Option<LimitError> {
    if e.scopes.Some? && !ScopesOk(rules, e.scopes.value) then Some(InvalidScope) else None
  }

  function WindowError(e: Edit): Option<LimitError> {
    ValidateTimeWindow(e.timeStart, e.timeEnd)
  }

  function PeriodError(lt: LimitType, e: Edit, now: Instant): Option<LimitError> {
    if e.customStart.None? && e.customEnd.None? then None else ValidateCustomPeriod(lt, e.customStart, e.customEnd, now)
  }

  function TermsEditError(rules: TextRules, e: Edit): Option<LimitError> {
    First(First(NameError(rules, e), AmountError(e)), First(DescriptionError(rules, e), ScopesError(rules, e)))
  }

  function TimesEditError(lt: LimitType, e: Edit, now: Instant): Option<LimitError> {
    First(WindowError(e), PeriodError(lt, e, now))
  }

  // The fields that an edit can reach.
  datatype Terms = Terms(name: string, maxAmount: real, description: Option<string>, scopes: seq<Scope>)

  datatype Times = Times(timeStart: Option<TimeOfDay>, timeEnd: Option<TimeOfDay>, customStart: Option<Instant>, customEnd: Option<Instant>,
                         resetAt: Option<Instant>)

  // A name is written whenever it is valid, whatever fails later; the amount, if the name was fine as well; and so on.
  function EditedTerms(rules: TextRules, e: Edit, t: Terms): Terms {
    Terms(if e.name.Some? && NameError(rules, e).None? then rules.trim(e.name.value) else t.name,
          if e.maxAmount.Some? && First(NameError(rules, e), AmountError(e)).None? then e.maxAmount.value else t.maxAmount,
          if e.description.Some? && First(First(NameError(rules, e), AmountError(e)), DescriptionError(rules, e)).None?
          then Some(rules.trim(e.description.value)) else t.description,
          if e.scopes.Some? && TermsEditError(rules, e).None? then e.scopes.value else t.scopes)
  }

  function EditedWindow(e: Edit, t: Times): Times {
    if WindowError(e).None? && (e.timeStart.Some? || e.timeEnd.Some?) then t.(timeStart := e.timeStart, timeEnd := e.timeEnd) else t
  }

  function EditedPeriod(lt: LimitType, e: Edit, now: Instant, t: Times): Times {
    if PeriodError(lt, e, now).None? && e.customStart.Some? && e.customEnd.Some?
    then t.(customStart := e.customStart, customEnd := e.customEnd, resetAt := Some(CalculateCustomResetAt(e.customEnd.value))) else t
  }

  // The window and the dates are written in pairs, the dates only if the window was fine.
  function EditedTimes(lt: LimitType, e: Edit, now: Instant, t: Times): Times {
    if WindowError(e).None? then EditedPeriod(lt, e, now, EditedWindow(e, t)) else t
  }

  // What an edit without an error shows, field by field: what is given, texts trimmed, and otherwise what was there.
  predicate TermsShow(rules: TextRules, e: Edit, before: Terms, after: Terms) {
    (match e.name case Some(name) => after.name == NormalName(rules, name) case None => after.name == before.name)
    && (match e.maxAmount case Some(amount) => after.maxAmount == amount case None => after.maxAmount == before.maxAmount)
    && after.description == (if e.description.Some? then NormalDescription(rules, e.description) else before.description)
    && (match e.scopes case Some(scopes) => after.scopes == scopes case None => after.scopes == before.scopes)
  }

  // A window and a period are given whole; a new period brings the first midnight after its end as reset instant.
  predicate TimesShow(e: Edit, before: Times, after: Times) {
    (if e.timeStart.None? && e.timeEnd.None? then after.timeStart == before.timeStart && after.timeEnd == before.timeEnd
     else after.timeStart == e.timeStart && after.timeEnd == e.timeEnd && e.timeStart.Some? && e.timeEnd.Some? && e.timeStart != e.timeEnd)
    && (if e.customStart.None? && e.customEnd.None? then
          after.customStart == before.customStart && after.customEnd == before.customEnd && after.resetAt == before.resetAt
        else after.customStart == e.customStart && after.customEnd == e.customEnd && e.customStart.Some? && e.customEnd.Some?
             && after.resetAt == Some(Midnight(DayOf(e.customEnd.value) + 1)))
  }

  lemma EditShows(rules: TextRules, lt: LimitType, e: Edit, now: Instant, terms: Terms, times: Times)
    ensures TermsEditError(rules, e).None? ==> TermsShow(rules, e, terms, EditedTerms(rules, e, terms))
    ensures TimesEditError(lt, e, now).None? ==> TimesShow(e, times, EditedTimes(lt, e, now, times))
  {
    if PeriodError(lt, e, now).None? && (e.customStart.Some? || e.customEnd.Some?) { FaultlessDates(lt, e.customStart, e.customEnd); }
  }

  function First(a: Option<LimitError>, b: Option<LimitError>): Option<LimitError> {
    if a.Some? then a else b
  }

  // What is wrong with the name, description, type, amount, currency or scopes.
  function TermsFault(rules: TextRules, lt: LimitType, currency: string, name: string, description: Option<string>,
                      maxAmount: real, scopes: seq<Scope>): Option<LimitError> {
    if !rules.name(name) then Some(InvalidName)
    else if description.Some? && !rules.description(description.value) then Some(InvalidDescription)
    else if !KnownType(lt) then Some(InvalidType)
    else if maxAmount <= 0.0 then Some(InvalidMaxAmount)
    else if !rules.currency(currency) then Some(InvalidCurrency)
    else if !ScopesOk(rules, scopes) then Some(InvalidScope)
    else None
  }

  lemma CustomPeriodOkIff(lt: LimitType, start: Instant, end: Instant, createdAt: Instant)
    ensures ValidateCustomPeriod(lt, Some(start), Some(end), createdAt).None? <==> CustomPeriodOk(lt, start, end, createdAt)
  {
  }

  // A CUSTOM limit, dates in order, at most five years apart, and not over before the day of creation.
  predicate CustomPeriodOk(lt: LimitType, start: Instant, end: Instant, createdAt: Instant) {
    lt.Custom? && start < end <= YearsLater(start, MAX_CUSTOM_PERIOD_YEARS) && Midnight(DayOf(createdAt)) <= end
  }

  function NormalName(rules: TextRules, name: string): string {
    rules.trim(name)
  }

  function NormalCurrency(rules: TextRules, currency: string): string {
    rules.upper(rules.trim(currency))
  }

  function NormalDescription(rules: TextRules, description: Option<string>): Option<string> {
    if description.None? then None else Some(rules.trim(description.value))
  }

  // Texts as given and as stored: trimmed, and the currency in upper case.
  predicate TextsNormalised(rules: TextRules, name: string, description: Option<string>, currency: string,
                            storedName: string, storedDescription: Option<string>, storedCurrency: string) {
    storedName == rules.trim(name) && storedCurrency == rules.upper(rules.trim(currency))
    && match description case None => storedDescription == None case Some(d) => storedDescription == Some(rules.trim(d))
  }

  // What every constructor asks of its arguments, as it normalises them.
  predicate GoodTerms(rules: TextRules, name: string, lt: LimitType, maxAmount: real, currency: string,
                      scopes: seq<Scope>, description: Option<string>) {
    rules.name(rules.trim(name)) && 0.0 < maxAmount && rules.currency(rules.upper(rules.trim(currency)))
    && (description.Some? ==> rules.description(rules.trim(description.value)))
    && (lt.Daily? || lt.Weekly? || lt.Monthly? || lt.Custom? || lt.PerTransaction?)
    && scopes != [] && forall s :: s in scopes ==> s != EmptyScope && (s.transactionType.Some? ==> rules.transactionType(s.transactionType.value))
  }

  lemma GoodTermsIff(rules: TextRules, name: string, lt: LimitType, maxAmount: real, currency: string,
                     scopes: seq<Scope>, description: Option<string>)
    ensures GoodTerms(rules, name, lt, maxAmount, currency, scopes, description)
            <==> TermsFault(rules, lt, NormalCurrency(rules, currency), NormalName(rules, name), NormalDescription(rules, description),
                            maxAmount, scopes).None?
  {
  }

  // What an edit has to satisfy: good texts, amount and scopes as far as given; a window with two different times; a
  // period only on a CUSTOM limit, with both dates, as a new limit would have to have it.
  predicate GoodEdit(rules: TextRules, lt: LimitType, e: Edit, now: Instant) {
    (e.name.Some? ==> rules.name(NormalName(rules, e.name.value)))
    && (e.maxAmount.Some? ==> 0.0 < e.maxAmount.value)
    && (e.description.Some? ==> rules.description(rules.trim(e.description.value)))
    && (e.scopes.Some? ==> ScopesOk(rules, e.scopes.value))
    && (e.timeStart.Some? || e.timeEnd.Some? ==> e.timeStart.Some? && e.timeEnd.Some? && e.timeStart != e.timeEnd)
    && (e.customStart.Some? || e.customEnd.Some? ==>
          e.customStart.Some? && e.customEnd.Some? && CustomPeriodOk(lt, e.customStart.value, e.customEnd.value, now))
  }

  lemma GoodEditIff(rules: TextRules, lt: LimitType, e: Edit, now: Instant)
    ensures GoodEdit(rules, lt, e, now) <==> First(TermsEditError(rules, e), TimesEditError(lt, e, now)).None?
  {
    if e.customStart.Some? && e.customEnd.Some? { CustomPeriodOkIff(lt, e.customStart.value, e.customEnd.value, now); }
  }

  class Limit {
    const rules: TextRules
    const limitType: LimitType
    const currency: string
    const createdAt: Instant
    var name: string
    var description: Option<string>
    var maxAmount: real
    var scopes: seq<Scope>
    var status: Status
    var timeStart: Option<TimeOfDay>
    var timeEnd: Option<TimeOfDay>
    var customStart: Option<Instant>
    var customEnd: Option<Instant>
    var resetAt: Option<Instant>
    var updatedAt: Instant
    var deletedAt: Option<Instant>

    function TermsNow(): Terms
      reads this`name, this`maxAmount, this`description, this`scopes
    {
      Terms(name, maxAmount, description, scopes)
    }

    function TimesNow(): Times
      reads this`timeStart, this`timeEnd, this`customStart, this`customEnd, this`resetAt
    {
      Times(timeStart, timeEnd, customStart, customEnd, resetAt)
    }

    function ShapeNow(): Shape
      reads this
    {
      Shape(TermsNow(), TimesNow(), status, updatedAt, deletedAt)
    }

    // A new draft with the given terms, normalised, and no times yet.
    ghost predicate IsBase(rules: TextRules, name: string, limitType: LimitType, maxAmount: real, currency: string,
                     scopes: seq<Scope>, description: Option<string>, createdAt: Instant)
      reads this`name, this`description, this`maxAmount, this`scopes, this`status, this`updatedAt, this`deletedAt
    {
      this.rules == rules && this.limitType == limitType && this.maxAmount == maxAmount && this.scopes == scopes
      && TextsNormalised(rules, name, description, currency, this.name, this.description, this.currency)
      && status == Draft && deletedAt == None && this.createdAt == updatedAt == createdAt
    }

    // newLimitBase, with the times that its callers fill in.
    constructor (rules: TextRules, name: string, limitType: LimitType, maxAmount: real, currency: string,
                 scopes: seq<Scope>, description: Option<string>, createdAt: Instant, times: Times)
      ensures IsBase(rules, name, limitType, maxAmount, currency, scopes, description, createdAt)
      ensures TimesNow() == times
    {
      this.rules, this.limitType, this.createdAt := rules, limitType, createdAt;
      this.currency := NormalCurrency(rules, currency);
      this.name, this.maxAmount, this.scopes := NormalName(rules, name), maxAmount, scopes;
      this.description := NormalDescription(rules, description);
      timeStart, timeEnd, customStart := times.timeStart, times.timeEnd, times.customStart;
      customEnd, resetAt := times.customEnd, times.resetAt;
      status, updatedAt, deletedAt := Draft, createdAt, None;
    }

    function TermsError(): Option<LimitError>
      reads this`name, this`description, this`maxAmount, this`scopes
    {
      TermsFault(rules, limitType, currency, name, description, maxAmount, scopes)
    }

    // The first thing wrong with the limit, if anything is.
    function Validate(): Option<LimitError>
      reads this
    {
      First(TermsError(),
            First(ValidateTimeWindow(timeStart, timeEnd),
                  First(PeriodFault(limitType, customStart, customEnd), if (status == Deleted) != deletedAt.Some? then Some(DeletedAtInvariant) else None)))
    }

    predicate TimesOk()
      reads this`timeStart, this`timeEnd, this`customStart, this`customEnd, this`resetAt
    {
      ValidateTimeWindow(timeStart, timeEnd).None? && PeriodFault(limitType, customStart, customEnd).None? && ResetOk()
    }

    // A limit that validates, and whose reset instant is the one its type prescribes.
    predicate WellFormed()
      reads this
    {
      TermsError().None? && TimesOk() && (status == Deleted <==> deletedAt.Some?)
    }

    predicate ResetOk()
      reads this`resetAt, this`customEnd
    {
      resetAt == (if limitType.Custom? && customEnd.Some? then Some(CalculateCustomResetAt(customEnd.value))
                  else CalculateResetAt(limitType, createdAt))
    }

    // Validate succeeds on a well-formed limit, and finds fault with any other whose reset instant is right.
    lemma ValidatesIffWellFormed()
      ensures WellFormed() <==> Validate().None? && ResetOk()
    {
    }

    // A constructor hands out what it built only if that validates.
    static method Checked(limit: Limit) returns (l: Limit?, err: Option<LimitError>)
      requires limit.ResetOk()
      ensures l == null <==> err.Some?
      ensures l == null <==> !limit.WellFormed()
      ensures l != null ==> l == limit
    {
      err := limit.Validate();
      limit.ValidatesIffWellFormed();
      l := if err.Some? then null else limit;
    }

    static method NewLimit(rules: TextRules, name: string, limitType: LimitType, maxAmount: real, currency: string,
                           scopes: seq<Scope>, description: Option<string>, createdAt: Instant)
      returns (l: Limit?, err: Option<LimitError>)
      ensures l == null <==> err.Some?
      ensures l != null <==> GoodTerms(rules, name, limitType, maxAmount, currency, scopes, description) && !limitType.Custom?
      ensures l != null ==> fresh(l) && l.WellFormed() && l.IsBase(rules, name, limitType, maxAmount, currency, scopes, description, createdAt)
      ensures l != null ==> l.timeStart == l.timeEnd == None && l.customStart == l.customEnd == None
    {
      var times := Times(None, None, None, None, CalculateResetAt(limitType, createdAt));
      GoodTermsIff(rules, name, limitType, maxAmount, currency, scopes, description);
      var limit := new Limit(rules, name, limitType, maxAmount, currency, scopes, description, createdAt, times);
      l, err := Checked(limit);
    }

    // activeTimeStart and activeTimeEnd as parsed; None is a text that is no time of day.
    static method NewLimitWithTimeWindow(rules: TextRules, name: string, limitType: LimitType, maxAmount: real, currency: string,
                                         scopes: seq<Scope>, description: Option<string>,
                                         start: Option<TimeOfDay>, end: Option<TimeOfDay>, createdAt: Instant)
      returns (l: Limit?, err: Option<LimitError>)
      ensures l == null <==> err.Some?
      ensures l != null <==> GoodTerms(rules, name, limitType, maxAmount, currency, scopes, description) && !limitType.Custom?
                             && start.Some? && end.Some? && start != end
      ensures l != null ==> fresh(l) && l.WellFormed() && l.IsBase(rules, name, limitType, maxAmount, currency, scopes, description, createdAt)
      ensures l != null ==> l.timeStart == start && l.timeEnd == end && l.customStart == l.customEnd == None
    {
      if start.None? || end.None? { return null, Some(InvalidTimeOfDay); }
      err := ValidateTimeWindow(start, end);
      if err.Some? { return null, err; }
      var times := Times(start, end, None, None, CalculateResetAt(limitType, createdAt));
      GoodTermsIff(rules, name, limitType, maxAmount, currency, scopes, description);
      var limit := new Limit(rules, name, limitType, maxAmount, currency, scopes, description, createdAt, times);
      l, err := Checked(limit);
    }

    // The second half of both CUSTOM constructors, once the dates and the window are known to be fine.
    static method NewCustom(
        rules: TextRules, name: string, limitType: LimitType, maxAmount: real, currency: string,
        scopes: seq<Scope>, description: Option<string>, start: Instant, end: Instant,
        timeStart: Option<TimeOfDay>, timeEnd: Option<TimeOfDay>, createdAt: Instant)
      returns (l: Limit?, err: Option<LimitError>)
      requires PeriodFault(limitType, Some(start), Some(end)).None? && ValidateTimeWindow(timeStart, timeEnd).None?
      ensures l == null <==> err.Some?
      ensures l != null <==> GoodTerms(rules, name, limitType, maxAmount, currency, scopes, description)
      ensures l != null ==> fresh(l) && l.WellFormed() && l.IsBase(rules, name, limitType, maxAmount, currency, scopes, description, createdAt)
      ensures l != null ==> l.customStart == Some(start) && l.customEnd == Some(end) && l.timeStart == timeStart && l.timeEnd == timeEnd
    {
      var times := Times(timeStart, timeEnd, Some(start), Some(end), Some(CalculateCustomResetAt(end)));
      GoodTermsIff(rules, name, limitType, maxAmount, currency, scopes, description);
      var limit := new Limit(rules, name, limitType, maxAmount, currency, scopes, description, createdAt, times);
      l, err := Checked(limit);
    }

    static method NewLimitWithCustomPeriod(
        rules: TextRules, name: string, limitType: LimitType, maxAmount: real, currency: string,
        scopes: seq<Scope>, description: Option<string>, start: Instant, end: Instant, createdAt: Instant)
      returns (l: Limit?, err: Option<LimitError>)
      ensures l == null <==> err.Some?
      ensures l != null <==> GoodTerms(rules, name, limitType, maxAmount, currency, scopes, description) && CustomPeriodOk(limitType, start, end, createdAt)
      ensures l != null ==> fresh(l) && l.WellFormed() && l.IsBase(rules, name, limitType, maxAmount, currency, scopes, description, createdAt)
      ensures l != null ==> l.customStart == Some(start) && l.customEnd == Some(end) && l.timeStart == l.timeEnd == None
    {
      CustomPeriodOkIff(limitType, start, end, createdAt);
      err := ValidateCustomPeriod(limitType, Some(start), Some(end), createdAt);
      if err.Some? { return null, err; }
      l, err := NewCustom(rules, name, limitType, maxAmount, currency, scopes, description, start, end, None, None, createdAt);
    }

    static method NewLimitWithCustomPeriodAndTimeWindow(
        rules: TextRules, name: string, limitType: LimitType, maxAmount: real, currency: string,
        scopes: seq<Scope>, description: Option<string>, start: Instant, end: Instant,
        timeStart: Option<TimeOfDay>, timeEnd: Option<TimeOfDay>, createdAt: Instant)
      returns (l: Limit?, err: Option<LimitError>)
      ensures l == null <==> err.Some?
      ensures l != null <==> GoodTerms(rules, name, limitType, maxAmount, currency, scopes, description) && CustomPeriodOk(limitType, start, end, createdAt)
                             && timeStart.Some? && timeEnd.Some? && timeStart != timeEnd
      ensures l != null ==> fresh(l) && l.WellFormed() && l.IsBase(rules, name, limitType, maxAmount, currency, scopes, description, createdAt)
      ensures l != null ==> l.customStart == Some(start) && l.customEnd == Some(end) && l.timeStart == timeStart && l.timeEnd == timeEnd
    {
      CustomPeriodOkIff(limitType, start, end, createdAt);
      err := ValidateCustomPeriod(limitType, Some(start), Some(end), createdAt);
      if err.Some? { return null, err; }
      if timeStart.None? || timeEnd.None? { return null, Some(InvalidTimeOfDay); }
      err := ValidateTimeWindow(timeStart, timeEnd);
      if err.Some? { return null, err; }
      l, err := NewCustom(rules, name, limitType, maxAmount, currency, scopes, description, start, end, timeStart, timeEnd, createdAt);
    }

    // Fields are checked and written one after another, so an error leaves the earlier ones written.
    method Update(e: Edit, now: Instant) returns (err: Option<LimitError>)
      requires WellFormed()
      modifies this`name, this`maxAmount, this`description, this`scopes, this`updatedAt
      modifies this`timeStart, this`timeEnd, this`customStart, this`customEnd, this`resetAt
      ensures WellFormed()
      ensures err == First(TermsEditError(rules, e), TimesEditError(limitType, e, now))
      ensures err.None? <==> GoodEdit(rules, limitType, e, now)
      ensures updatedAt == if err.None? && (GivesTerms(e) || GivesTimes(e)) then now else old(updatedAt)
      ensures TermsNow() == EditedTerms(rules, e, old(TermsNow()))
      ensures TimesNow() == if TermsEditError(rules, e).None? then EditedTimes(limitType, e, now, old(TimesNow())) else old(TimesNow())
      ensures err.None? ==> TermsShow(rules, e, old(TermsNow()), TermsNow()) && TimesShow(e, old(TimesNow()), TimesNow())
    {
      ghost var terms, times := TermsNow(), TimesNow();
      err := UpdateInTurn(e, now);
      EditShows(rules, limitType, e, now, terms, times);
      GoodEditIff(rules, limitType, e, now);
    }

    method UpdateInTurn(e: Edit, now: Instant) returns (err: Option<LimitError>)
      requires WellFormed()
      modifies this`name, this`maxAmount, this`description, this`scopes, this`updatedAt
      modifies this`timeStart, this`timeEnd, this`customStart, this`customEnd, this`resetAt
      ensures WellFormed()
      ensures err == First(TermsEditError(rules, e), TimesEditError(limitType, e, now))
      ensures updatedAt == if err.None? && (GivesTerms(e) || GivesTimes(e)) then now else old(updatedAt)
      ensures TermsNow() == EditedTerms(rules, e, old(TermsNow()))
      ensures TimesNow() == if TermsEditError(rules, e).None? then EditedTimes(limitType, e, now, old(TimesNow())) else old(TimesNow())
    {
      var given;
      given, err := UpdateTerms(e);
      err := FinishUpdate(e, now, given, err);
    }

    // The times, if nothing was wrong before; then the timestamp.
    method FinishUpdate(e: Edit, now: Instant, given: bool, before: Option<LimitError>) returns (err: Option<LimitError>)
      requires TimesOk()
      modifies this`timeStart, this`timeEnd, this`customStart, this`customEnd, this`resetAt, this`updatedAt
      ensures TimesOk() && err == First(before, TimesEditError(limitType, e, now))
      ensures updatedAt == if err.None? && (given || GivesTimes(e)) then now else old(updatedAt)
      ensures TimesNow() == if before.None? then EditedTimes(limitType, e, now, old(TimesNow())) else old(TimesNow())
    {
      err := before;
      if before.None? {
        var timesGiven;
        timesGiven, err := UpdateTimes(e, now);
        if err.None? && (given || timesGiven) { updatedAt := now; }
      }
    }

    method UpdateTimes(e: Edit, now: Instant) returns (updated: bool, err: Option<LimitError>)
      requires TimesOk()
      modifies this`timeStart, this`timeEnd, this`customStart, this`customEnd, this`resetAt
      ensures TimesOk() && err == TimesEditError(limitType, e, now)
      ensures err.None? ==> (updated <==> GivesTimes(e))
      ensures TimesNow() == EditedTimes(limitType, e, now, old(TimesNow()))
    {
      var windowGiven, periodGiven;
      windowGiven, err := UpdateWindow(e);
      if err.Some? { return false, err; }
      periodGiven, err := UpdatePeriod(e, now);
      updated := windowGiven || periodGiven;
    }

    method UpdateTerms(e: Edit) returns (updated: bool, err: Option<LimitError>)
      requires TermsError().None?
      modifies this`name, this`maxAmount, this`description, this`scopes
      ensures TermsError().None? && err == TermsEditError(rules, e)
      ensures err.None? ==> (updated <==> GivesTerms(e))
      ensures TermsNow() == EditedTerms(rules, e, old(TermsNow()))
    {
      updated := false;
      if e.name.Some? {
        if NameError(rules, e).Some? { return updated, NameError(rules, e); }
        name := rules.trim(e.name.value);
        updated := true;
      }
      if e.maxAmount.Some? {
        if AmountError(e).Some? { return updated, AmountError(e); }
        maxAmount := e.maxAmount.value;
        updated := true;
      }
      if e.description.Some? {
        if DescriptionError(rules, e).Some? { return updated, DescriptionError(rules, e); }
        description := Some(rules.trim(e.description.value));
        updated := true;
      }
      if e.scopes.Some? {
        if ScopesError(rules, e).Some? { return updated, ScopesError(rules, e); }
        scopes := e.scopes.value;
        updated := true;
      }
      err := None;
    }

    method UpdateWindow(e: Edit) returns (updated: bool, err: Option<LimitError>)
      requires ValidateTimeWindow(timeStart, timeEnd).None?
      modifies this`timeStart, this`timeEnd
      ensures ValidateTimeWindow(timeStart, timeEnd).None?
      ensures err == WindowError(e) && (updated <==> err.None? && (e.timeStart.Some? || e.timeEnd.Some?))
      ensures TimesNow() == EditedWindow(e, old(TimesNow()))
    {
      if e.timeStart.None? && e.timeEnd.None? { return false, None; }
      err := ValidateTimeWindow(e.timeStart, e.timeEnd);
      if err.Some? { return false, err; }
      timeStart, timeEnd := e.timeStart, e.timeEnd;
      updated := true;
    }

    method UpdatePeriod(e: Edit, now: Instant) returns (updated: bool, err: Option<LimitError>)
      requires PeriodFault(limitType, customStart, customEnd).None? && ResetOk()
      modifies this`customStart, this`customEnd, this`resetAt
      ensures PeriodFault(limitType, customStart, customEnd).None? && ResetOk()
      ensures err == PeriodError(limitType, e, now) && (updated <==> err.None? && (e.customStart.Some? || e.customEnd.Some?))
      ensures TimesNow() == EditedPeriod(limitType, e, now, old(TimesNow()))
    {
      if e.customStart.None? && e.customEnd.None? { return false, None; }
      err := ValidateCustomPeriod(limitType, e.customStart, e.customEnd, now);
      if err.Some? { return false, err; }
      FaultlessDates(limitType, e.customStart, e.customEnd);
      customStart, customEnd := e.customStart, e.customEnd;
      if e.customEnd.Some? { resetAt := Some(CalculateCustomResetAt(e.customEnd.value)); }
      updated := true;
    }

    // The walk through the transitions allowed from here.
    method CanBecome(to: Status) returns (valid: bool)
      ensures valid == CanTransition(status, to)
    {
      var allowed := ValidTransitions(status);
      valid := false;
      for i := 0 to |allowed|
        invariant !valid && to !in allowed[..i]
      {
        if to == allowed[i] { return true; }
      }
    }

    method SetStatus(to: Status, now: Instant) returns (err: Option<LimitError>)
      requires WellFormed()
      modifies this`status, this`updatedAt, this`deletedAt
      ensures WellFormed()
      ensures err.None? <==> old(status) == to || CanTransition(old(status), to)
      ensures err.None? ==> status == to
      ensures err.Some? || old(status) == to ==> status == old(status) && updatedAt == old(updatedAt) && deletedAt == old(deletedAt)
      ensures err.None? && old(status) != to ==> updatedAt == now && deletedAt == if to == Deleted then Some(now) else None
    {
      if status == to { return None; }
      var valid := CanBecome(to);
      if !valid { return Some(InvalidStatusChange); }
      status, updatedAt := to, now;
      deletedAt := if to == Deleted then Some(now) else None;
      err := None;
    }
  }

  datatype Step = DoUpdate(edit: Edit, now: Instant) | DoSetStatus(to: Status, now: Instant)

  // The mutable part of a limit.
  datatype Shape = Shape(terms: Terms, times: Times, status: Status, updatedAt: Instant, deletedAt: Option<Instant>)

  // One step of a limit's life. An edit with an error leaves what was written before the error, but neither
  // status nor timestamps; a refused or repeated status change leaves everything.
  predicate Performed(rules: TextRules, lt: LimitType, before: Shape, step: Step, err: Option<LimitError>, after: Shape) {
    match step
    case DoUpdate(e, now) =>
      (err.None? <==> GoodEdit(rules, lt, e, now))
      && after.status == before.status && after.deletedAt == before.deletedAt
      && (if err.None?
          then TermsShow(rules, e, before.terms, after.terms) && TimesShow(e, before.times, after.times)
               && after.updatedAt == (if GivesTerms(e) || GivesTimes(e) then now else before.updatedAt)
          else after.updatedAt == before.updatedAt)
    case DoSetStatus(to, now) =>
      (err.None? <==> before.status == to || CanTransition(before.status, to))
      && after == if err.Some? || before.status == to then before
                  else before.(status := to, updatedAt := now, deletedAt := if to == Deleted then Some(now) else None)
  }

  method Perform(l: Limit, step: Step) returns (err: Option<LimitError>)
    requires l.WellFormed()
    modifies l
    ensures l.WellFormed()
    ensures Performed(l.rules, l.limitType, old(l.ShapeNow()), step, err, l.ShapeNow())
  {
    match step {
      case DoUpdate(edit, now) => err := l.Update(edit, now);
      case DoSetStatus(to, now) => err := l.SetStatus(to, now);
    }
  }

  // A life: one shape before each step and one after the last.
  predicate Lived(rules: TextRules, lt: LimitType, shapes: seq<Shape>, script: seq<Step>, errors: seq<Option<LimitError>>) {
    |shapes| == |errors| + 1 && |errors| <= |script|
    && forall i :: 0 <= i < |errors| ==> Performed(rules, lt, shapes[i], script[i], errors[i], shapes[i + 1])
  }

  lemma OneMoreStep(rules: TextRules, lt: LimitType, shapes: seq<Shape>, script: seq<Step>, errors: seq<Option<LimitError>>,
                    err: Option<LimitError>, after: Shape)
    requires Lived(rules, lt, shapes, script, errors) && |errors| < |script|
    requires Performed(rules, lt, shapes[|errors|], script[|errors|], err, after)
    ensures Lived(rules, lt, shapes + [after], script, errors + [err])
  {
  }

  lemma {:induction false} DeletedForGood(rules: TextRules, lt: LimitType, shapes: seq<Shape>, script: seq<Step>,
                                          errors: seq<Option<LimitError>>, i: nat)
    requires Lived(rules, lt, shapes, script, errors) && i <= |errors|
    ensures shapes[0].status == Deleted ==> shapes[i].status == Deleted && shapes[i].deletedAt == shapes[0].deletedAt
    decreases i
  {
    if i > 0 {
      DeletedForGood(rules, lt, shapes, script, errors, i - 1);
      assert Performed(rules, lt, shapes[i - 1], script[i - 1], errors[i - 1], shapes[i]);
    }
  }

  // Whatever is done to a limit, errors included, it still validates (ValidatesIffWellFormed) and every step does what
  // it says; type and currency are the ones it was born with, and a deleted limit stays deleted.
  method Run(l: Limit, script: seq<Step>) returns (errors: seq<Option<LimitError>>, ghost shapes: seq<Shape>)
    requires l.WellFormed()
    modifies l
    ensures l.WellFormed() && |errors| == |script|
    ensures |shapes| == |script| + 1 && shapes[0] == old(l.ShapeNow()) && shapes[|script|] == l.ShapeNow()
    ensures forall i :: 0 <= i < |script| ==> Performed(l.rules, l.limitType, shapes[i], script[i], errors[i], shapes[i + 1])
    ensures old(l.status) == Deleted ==> l.status == Deleted && l.deletedAt == old(l.deletedAt)
  {
    errors := [];
    shapes := [l.ShapeNow()];
    for i := 0 to |script|
      invariant l.WellFormed() && |errors| == i && Lived(l.rules, l.limitType, shapes, script, errors)
      invariant shapes[0] == old(l.ShapeNow()) && shapes[i] == l.ShapeNow()
    {
      var err := Perform(l, script[i]);
      OneMoreStep(l.rules, l.limitType, shapes, script, errors, err, l.ShapeNow());
      errors := errors + [err];
      shapes := shapes + [l.ShapeNow()];
    }
    DeletedForGood(l.rules, l.limitType, shapes, script, errors, |script|);
  }

  lemma NextMidnight(end: Instant)
    ensures CalculateCustomResetAt(end) % DAY == 0 && end < CalculateCustomResetAt(end) <= end + DAY
  {
  }

  // A CUSTOM limit resets at the first midnight after its end date, when no timestamp is within its period any more.
  lemma CustomResetIsAfterPeriod(l: Limit, t: Instant)
    requires l.WellFormed() && l.limitType.Custom?
    ensures l.resetAt.Some? && l.resetAt.value % DAY == 0
    ensures l.customEnd.Some? && l.customEnd.value < l.resetAt.value <= l.customEnd.value + DAY
    ensures WithinCustomPeriod(l.limitType, l.customStart, l.customEnd, t) ==> l.customStart.value <= t < l.resetAt.value
  {
    NextMidnight(l.customEnd.value);
  }
}
