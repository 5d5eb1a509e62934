/** Which fields are open after a merge, and the question the client is sent about them. */
module Clarification {
  import opened Prelude
  import opened Shipment
  import opened Validation
  import opened Sorting
  import Calendar

  datatype Reason = AskMissing | AskAmbiguous | AskInvalid | AskConflict

  /** An entry of the message; a conflict carries the two values the client gave. */
  datatype UnresolvedField = UnresolvedField(field: FieldName, reason: Reason, clash: Option<FieldConflict>)

  datatype Analysis = Analysis(unresolved: seq<UnresolvedField>, blockedByDenial: seq<FieldName>) {
    predicate NeedsClarification() { unresolved != [] }
    predicate IsStuck() { unresolved == [] && blockedByDenial != [] }
  }

  function ReasonFor(status: Reading): Reason {
    match status
    case Ambiguous => AskAmbiguous
    case Invalid => AskInvalid
    case _ => AskMissing
  }

  predicate Blocking(i: Issue) {
    i.severity.Missing? || i.severity.Wrong?
  }

  /** A blocking finding whose field no conflict already covers. */
  predicate Open(i: Issue, conflicted: set<FieldName>) {
    Blocking(i) && i.field !in conflicted
  }

  ghost function FromIssues(issues: seq<Issue>, x: Extraction, conflicted: set<FieldName>): seq<UnresolvedField> {
    if issues == [] then []
    else
      var i := issues[|issues| - 1];
      FromIssues(issues[..|issues| - 1], x, conflicted)
      + if Open(i, conflicted) && !StatusOf(x, i.field).Denied?
        then [UnresolvedField(i.field, ReasonFor(StatusOf(x, i.field)), None)] else []
  }

  ghost function DeniedIn(issues: seq<Issue>, x: Extraction, conflicted: set<FieldName>): seq<FieldName> {
    if issues == [] then []
    else
      var i := issues[|issues| - 1];
      DeniedIn(issues[..|issues| - 1], x, conflicted)
      + if Open(i, conflicted) && StatusOf(x, i.field).Denied? then [i.field] else []
  }

  ghost function FromConflicts(conflicts: seq<FieldConflict>): seq<UnresolvedField> {
    if conflicts == [] then []
    else
      var c := conflicts[|conflicts| - 1];
      FromConflicts(conflicts[..|conflicts| - 1]) + [UnresolvedField(c.field, AskConflict, Some(c))]
  }

  /** Alphabetical order of the reasons' names, which is what the sort key compares. */
  function ReasonRank(r: Reason): nat {
    match r
    case AskAmbiguous => 0
    case AskConflict => 1
    case AskInvalid => 2
    case AskMissing => 3
  }

  predicate CanonicallyBefore(a: UnresolvedField, b: UnresolvedField) {
    || Position(a.field) < Position(b.field)
    || (Position(a.field) == Position(b.field) && ReasonRank(a.reason) < ReasonRank(b.reason))
  }

  function CanonicalOrder(): (UnresolvedField, UnresolvedField) -> bool {
    (a: UnresolvedField, b: UnresolvedField) => CanonicallyBefore(a, b)
  }

  ghost function Identify(issues: seq<Issue>, x: Extraction, conflicts: seq<FieldConflict>): Analysis {
    var conflicted := FieldsOf(conflicts);
    Analysis(Sort(FromIssues(issues, x, conflicted) + FromConflicts(conflicts), CanonicalOrder()),
             DeniedIn(issues, x, conflicted))
  }

  /** The source's two loops and the final sort. */
  method IdentifyUnresolved(issues: seq<Issue>, x: Extraction, conflicts: seq<FieldConflict>) returns (a: Analysis)
    ensures a == Identify(issues, x, conflicts)
  {
    var conflicted := FieldsOf(conflicts);
    var unresolved: seq<UnresolvedField> := [];
    var denied: seq<FieldName> := [];
    for n := 0 to |issues|
      invariant unresolved == FromIssues(issues[..n], x, conflicted)
      invariant denied == DeniedIn(issues[..n], x, conflicted)
    {
      var issue := issues[n];
      assert issues[..n + 1][..n] == issues[..n];
      if !Blocking(issue) || issue.field in conflicted {
        continue;
      }
      var status := StatusOf(x, issue.field);
      if status.Denied? {
        denied := denied + [issue.field];
      } else if status.Ambiguous? {
        unresolved := unresolved + [UnresolvedField(issue.field, AskAmbiguous, None)];
      } else if status.Invalid? {
        unresolved := unresolved + [UnresolvedField(issue.field, AskInvalid, None)];
      } else {
        unresolved := unresolved + [UnresolvedField(issue.field, AskMissing, None)];
      }
    }
    assert issues[..|issues|] == issues;
    ghost var gaps := unresolved;
    for n := 0 to |conflicts|
      invariant unresolved == gaps + FromConflicts(conflicts[..n])
    {
      assert conflicts[..n + 1][..n] == conflicts[..n];
      unresolved := unresolved + [UnresolvedField(conflicts[n].field, AskConflict, Some(conflicts[n]))];
    }
    assert conflicts[..|conflicts|] == conflicts;
    a := Analysis(Sort(unresolved, CanonicalOrder()), denied);
  }

  // ----- what is asked ------------------------------------------------------

  lemma CanonicalOrderIsAKeyOrder()
    ensures KeyOrder(CanonicalOrder())
    ensures forall a, b :: !CanonicallyBefore(a, b) && !CanonicallyBefore(b, a) ==>
              Position(a.field) == Position(b.field) && a.reason == b.reason
  {
  }

  lemma {:induction false} FromIssuesMembers(issues: seq<Issue>, x: Extraction, conflicted: set<FieldName>)
    ensures forall u :: u in FromIssues(issues, x, conflicted) <==>
              exists i :: i in issues && Open(i, conflicted) && !StatusOf(x, i.field).Denied?
                          && u == UnresolvedField(i.field, ReasonFor(StatusOf(x, i.field)), None)
    ensures forall f :: f in DeniedIn(issues, x, conflicted) <==>
              exists i :: i in issues && Open(i, conflicted) && StatusOf(x, i.field).Denied? && i.field == f
  {
    if issues == [] {
    } else {
      var before, last := issues[..|issues| - 1], issues[|issues| - 1];
      FromIssuesMembers(before, x, conflicted);
      assert issues == before + [last];
    }
  }

  lemma {:induction false} FromConflictsMembers(conflicts: seq<FieldConflict>)
    ensures forall u :: u in FromConflicts(conflicts) <==>
              exists c :: c in conflicts && u == UnresolvedField(c.field, AskConflict, Some(c))
    ensures |FromConflicts(conflicts)| == |conflicts|
  {
    if conflicts == [] {
    } else {
      var before, last := conflicts[..|conflicts| - 1], conflicts[|conflicts| - 1];
      FromConflictsMembers(before);
      assert conflicts == before + [last];
    }
  }

  /** Every entry is about a different field. */
  ghost predicate AskedOnce(us: seq<UnresolvedField>) {
    forall i, j :: 0 <= i < j < |us| ==> us[i].field != us[j].field
  }

  lemma {:induction false} FromIssuesAskedOnce(issues: seq<Issue>, x: Extraction, conflicted: set<FieldName>)
    requires FieldsApart(issues)
    ensures AskedOnce(FromIssues(issues, x, conflicted))
  {
    if issues == [] {
    } else {
      var before, last := issues[..|issues| - 1], issues[|issues| - 1];
      FromIssuesAskedOnce(before, x, conflicted);
      FromIssuesMembers(before, x, conflicted);
      var us := FromIssues(before, x, conflicted);
      forall k | 0 <= k < |us| ensures us[k].field != last.field {
        assert us[k] in us;
        var i :| i in before && us[k].field == i.field;
        var j :| 0 <= j < |before| && before[j] == i;
        assert issues[j] == i;
      }
    }
  }

  ghost predicate ConflictsApart(conflicts: seq<FieldConflict>) {
    forall i, j :: 0 <= i < j < |conflicts| ==> conflicts[i].field != conflicts[j].field
  }

  lemma {:induction false} FromConflictsAskedOnce(conflicts: seq<FieldConflict>)
    requires ConflictsApart(conflicts)
    ensures AskedOnce(FromConflicts(conflicts))
  {
    if conflicts == [] {
    } else {
      var before, last := conflicts[..|conflicts| - 1], conflicts[|conflicts| - 1];
      FromConflictsAskedOnce(before);
      FromConflictsMembers(before);
      var us := FromConflicts(before);
      forall k | 0 <= k < |us| ensures us[k].field != last.field {
        assert us[k] in us;
        var c :| c in before && us[k].field == c.field;
        var j :| 0 <= j < |before| && before[j] == c;
        assert conflicts[j] == c;
      }
    }
  }

  lemma {:induction false} InsertAskedOnce(
    u: UnresolvedField, us: seq<UnresolvedField>, less: (UnresolvedField, UnresolvedField) -> bool)
    requires AskedOnce([u] + us)
    ensures AskedOnce(Insert(u, us, less))
  {
    if us == [] || !less(us[0], u) {
    } else {
      var rest := us[1..];
      assert ([u] + us)[0] == u && ([u] + us)[1] == us[0];
      assert forall k :: 0 <= k < |rest| ==> rest[k] == ([u] + us)[k + 2];
      InsertAskedOnce(u, rest, less);
      InsertIsPermutation(u, rest, less);
      var inserted := Insert(u, rest, less);
      forall k | 0 <= k < |inserted| ensures inserted[k].field != us[0].field {
        assert inserted[k] in multiset(inserted);
        assert inserted[k] in [u] + rest;
      }
    }
  }

  lemma {:induction false} SortAskedOnce(us: seq<UnresolvedField>, less: (UnresolvedField, UnresolvedField) -> bool)
    requires AskedOnce(us)
    ensures AskedOnce(Sort(us, less))
  {
    if us == [] {
    } else {
      var rest := us[1..];
      SortAskedOnce(rest, less);
      SortIsPermutation(rest, less);
      var sorted := Sort(rest, less);
      forall k | 0 <= k < |sorted| ensures sorted[k].field != us[0].field {
        assert sorted[k] in sorted;
        var j :| 0 <= j < |rest| && rest[j] == sorted[k];
        assert us[j + 1] == rest[j];
      }
      InsertAskedOnce(us[0], sorted, less);
    }
  }

  /** `issues` has a blocking finding about `f`. */
  ghost predicate HasGap(issues: seq<Issue>, f: FieldName) {
    exists i :: i in issues && Blocking(i) && i.field == f
  }

  /** `us` asks about `f`. */
  ghost predicate Asks(us: seq<UnresolvedField>, f: FieldName) {
    exists u :: u in us && u.field == f
  }

  lemma AskedFromEither(gaps: seq<UnresolvedField>, clashes: seq<UnresolvedField>)
    ensures forall u :: u in Sort(gaps + clashes, CanonicalOrder()) <==> u in gaps || u in clashes
  {
    SortIsPermutation(gaps + clashes, CanonicalOrder());
  }

  lemma GapsAskedExactly(issues: seq<Issue>, x: Extraction, conflicted: set<FieldName>, f: FieldName)
    ensures Asks(FromIssues(issues, x, conflicted), f)
            <==> f !in conflicted && HasGap(issues, f) && !StatusOf(x, f).Denied?
    ensures f in DeniedIn(issues, x, conflicted) <==> f !in conflicted && HasGap(issues, f) && StatusOf(x, f).Denied?
    ensures forall u :: u in FromIssues(issues, x, conflicted) && u.field == f ==>
              f !in conflicted && u.clash.None? && u.reason == ReasonFor(StatusOf(x, f))
  {
    FromIssuesMembers(issues, x, conflicted);
    if f !in conflicted && HasGap(issues, f) && !StatusOf(x, f).Denied? {
      assert UnresolvedField(f, ReasonFor(StatusOf(x, f)), None) in FromIssues(issues, x, conflicted);
    }
  }

  lemma ConflictsAskedExactly(conflicts: seq<FieldConflict>, f: FieldName)
    ensures Asks(FromConflicts(conflicts), f) <==> f in FieldsOf(conflicts)
    ensures forall u :: u in FromConflicts(conflicts) && u.field == f ==>
              f in FieldsOf(conflicts) && u.reason.AskConflict? && u.clash.Some? && u.clash.value in conflicts
                  && u.clash.value.field == f
  {
    FromConflictsMembers(conflicts);
    if f in FieldsOf(conflicts) {
      var c :| c in conflicts && c.field == f;
      assert UnresolvedField(f, AskConflict, Some(c)) in FromConflicts(conflicts);
    }
  }

  /** How many of the findings are open and denied. */
  ghost function OpenAndDenied(issues: seq<Issue>, x: Extraction, conflicted: set<FieldName>): nat {
    if issues == [] then 0
    else
      var i := issues[|issues| - 1];
      OpenAndDenied(issues[..|issues| - 1], x, conflicted)
      + if Open(i, conflicted) && StatusOf(x, i.field).Denied? then 1 else 0
  }

  /** The blocked list has the denied findings and no others, each once, in the order of the findings. */
  lemma {:induction false} BlockedInTheOrderOfTheFindings(issues: seq<Issue>, x: Extraction, conflicted: set<FieldName>)
    ensures |DeniedIn(issues, x, conflicted)| == OpenAndDenied(issues, x, conflicted)
    ensures forall n :: 0 <= n < |issues| && Open(issues[n], conflicted) && StatusOf(x, issues[n].field).Denied? ==>
              OpenAndDenied(issues[..n], x, conflicted) < |DeniedIn(issues, x, conflicted)|
              && DeniedIn(issues, x, conflicted)[OpenAndDenied(issues[..n], x, conflicted)] == issues[n].field
  {
    if issues == [] {
    } else {
      var init := issues[..|issues| - 1];
      BlockedInTheOrderOfTheFindings(init, x, conflicted);
      assert forall n :: 0 <= n < |init| ==> init[..n] == issues[..n] && init[n] == issues[n];
      assert init == issues[..|init|];
    }
  }

  lemma ReasonsOfGaps(status: Reading)
    ensures !ReasonFor(status).AskConflict?
    ensures ReasonFor(status).AskAmbiguous? <==> status == Ambiguous
    ensures ReasonFor(status).AskInvalid? <==> status == Reading.Invalid
  {
  }

  /** The fields asked about are exactly the conflicted ones and the gaps that are neither conflicted
      nor denied; denied gaps go only to the blocked list; whatever is asked as a conflict is one. */
  lemma AskedExactly(issues: seq<Issue>, x: Extraction, conflicts: seq<FieldConflict>, f: FieldName)
    ensures var a := Identify(issues, x, conflicts);
            && (Asks(a.unresolved, f) <==>
                  f in FieldsOf(conflicts) || (HasGap(issues, f) && !StatusOf(x, f).Denied?))
            && (f in a.blockedByDenial <==>
                  f !in FieldsOf(conflicts) && HasGap(issues, f) && StatusOf(x, f).Denied?)
            && (forall u :: u in a.unresolved && u.field == f ==>
                  && (u.reason.AskConflict? <==> f in FieldsOf(conflicts))
                  && (u.reason.AskConflict? <==> u.clash.Some?)
                  && (u.clash.Some? ==> u.clash.value in conflicts && u.clash.value.field == f)
                  && (u.reason.AskAmbiguous? <==> f !in FieldsOf(conflicts) && StatusOf(x, f) == Ambiguous)
                  && (u.reason.AskInvalid? <==> f !in FieldsOf(conflicts) && StatusOf(x, f) == Reading.Invalid))
  {
    var gaps, clashes := FromIssues(issues, x, FieldsOf(conflicts)), FromConflicts(conflicts);
    AskedFromEither(gaps, clashes);
    GapsAskedExactly(issues, x, FieldsOf(conflicts), f);
    ConflictsAskedExactly(conflicts, f);
    ReasonsOfGaps(StatusOf(x, f));
    assert forall u :: u in Identify(issues, x, conflicts).unresolved <==> u in gaps || u in clashes;
    if u :| u in gaps && u.field == f {
      assert u in Identify(issues, x, conflicts).unresolved;
    }
    if u :| u in clashes && u.field == f {
      assert u in Identify(issues, x, conflicts).unresolved;
    }
  }

  /** In canonical field order, strictly: nothing is asked twice. */
  ghost predicate StrictlyCanonical(us: seq<UnresolvedField>) {
    forall i, j :: 0 <= i < j < |us| ==> Position(us[i].field) < Position(us[j].field)
  }

  lemma AskedInCanonicalOrder(issues: seq<Issue>, x: Extraction, conflicts: seq<FieldConflict>)
    requires FieldsApart(issues) && ConflictsApart(conflicts)
    ensures StrictlyCanonical(Identify(issues, x, conflicts).unresolved)
  {
    var conflicted := FieldsOf(conflicts);
    var gaps, clashes := FromIssues(issues, x, conflicted), FromConflicts(conflicts);
    FromIssuesAskedOnce(issues, x, conflicted);
    FromConflictsAskedOnce(conflicts);
    FromIssuesMembers(issues, x, conflicted);
    FromConflictsMembers(conflicts);
    forall i, j | 0 <= i < |gaps| && 0 <= j < |clashes| ensures gaps[i].field != clashes[j].field {
      assert gaps[i] in gaps && clashes[j] in clashes;
    }
    assert AskedOnce(gaps + clashes);
    SortAskedOnce(gaps + clashes, CanonicalOrder());
    CanonicalOrderIsAKeyOrder();
    SortIsSorted(gaps + clashes, CanonicalOrder());
    var us := Sort(gaps + clashes, CanonicalOrder());
    forall i, j | 0 <= i < j < |us| ensures Position(us[i].field) < Position(us[j].field) {
      assert !CanonicallyBefore(us[j], us[i]);
      assert FIELDS[Position(us[i].field)] == us[i].field && FIELDS[Position(us[j].field)] == us[j].field;
    }
  }

  lemma {:induction false} MergeConflictsApart(fs: seq<FieldName>, existing: Fields, incoming: Fields)
    requires Distinct(fs)
    ensures ConflictsApart(ConflictsIn(fs, existing, incoming))
  {
    if fs == [] {
    } else {
      var before, last := fs[..|fs| - 1], fs[|fs| - 1];
      MergeConflictsApart(before, existing, incoming);
      MergeLists(before, existing, incoming);
      var cs := ConflictsIn(before, existing, incoming);
      forall k | 0 <= k < |cs| ensures cs[k].field != last {
        assert cs[k] in cs && cs[k].field in FieldsOf(cs);
        var j :| 0 <= j < |before| && before[j] == cs[k].field;
        assert fs[j] == before[j];
      }
    }
  }

  lemma FieldsAreDistinct()
    ensures Distinct(FIELDS)
  {
    forall i, j | 0 <= i < j < |FIELDS| ensures FIELDS[i] != FIELDS[j] {
      FieldsAreListedOnce(i);
      FieldsAreListedOnce(j);
    }
  }

  /** A whole workflow turn: one message merged into a record, validated, and analysed. Gaps are read
      off the merged record, so the two conditions below mention no list of findings. */
  lemma ATurnAsksExactly(existing: Fields, x: Extraction, today: Calendar.Day, f: FieldName)
    ensures var m := Merge(existing, ToExtractedFields(x));
            var a := Identify(Validate(m.record, Some(today)), x, m.conflicts);
            var clash := Clash(existing, Normalize(ToExtractedFields(x)), f);
            var gap := Lacks(m.record, f) || OutOfRange(m.record, f, Some(today));
            && (Asks(a.unresolved, f) <==> clash || (gap && !StatusOf(x, f).Denied?))
            && (f in a.blockedByDenial <==> !clash && gap && StatusOf(x, f).Denied?)
            && StrictlyCanonical(a.unresolved)
            && MsdsAttached !in a.blockedByDenial
  {
    var incoming := Normalize(ToExtractedFields(x));
    var m := Merge(existing, ToExtractedFields(x));
    var issues := Validate(m.record, Some(today));
    AskedExactly(issues, x, m.conflicts, f);
    MergeReportsEveryStatedField(existing, ToExtractedFields(x), f);
    GapsAreLacks(m.record, Some(today), f);
    FindingsConcernDifferentFields(m.record, Some(today));
    FieldsAreDistinct();
    MergeConflictsApart(FIELDS, existing, incoming);
    AskedInCanonicalOrder(issues, x, m.conflicts);
    ADeniedMsdsIsAnAnswer(existing, x, today);
  }

  lemma GapsAreLacks(r: Fields, today: Option<Calendar.Day>, f: FieldName)
    ensures HasGap(Validate(r, today), f) <==> Lacks(r, f) || OutOfRange(r, f, today)
  {
    FindingsAreTheGaps(r, today, f);
    if HasGap(Validate(r, today), f) {
      var i :| i in Validate(r, today) && Blocking(i) && i.field == f;
      assert Finds(r, today, f, i.severity);
    }
    if Finds(r, today, f, Missing) || Finds(r, today, f, Wrong) {
    }
  }

  /** "We have no MSDS" fills the field, so it never blocks a request. */
  lemma ADeniedMsdsIsAnAnswer(existing: Fields, x: Extraction, today: Calendar.Day)
    ensures var m := Merge(existing, ToExtractedFields(x));
            MsdsAttached !in Identify(Validate(m.record, Some(today)), x, m.conflicts).blockedByDenial
  {
    var stated := ToExtractedFields(x);
    var m := Merge(existing, stated);
    AskedExactly(Validate(m.record, Some(today)), x, m.conflicts, MsdsAttached);
    GapsAreLacks(m.record, Some(today), MsdsAttached);
    if StatusOf(x, MsdsAttached).Denied? {
      assert stated[MsdsAttached] == Flag(false);
      assert MsdsAttached in Normalize(stated);
      assert MsdsAttached in m.record && m.record[MsdsAttached].Flag?;
    }
  }

  lemma EveryFindingIsAccountedFor(issues: seq<Issue>, x: Extraction, i: Issue)
    requires i in issues && Blocking(i)
    ensures FromIssues(issues, x, {}) != [] || DeniedIn(issues, x, {}) != []
  {
    FromIssuesMembers(issues, x, {});
    assert Open(i, {});
    assert StatusOf(x, i.field).Denied? ==> i.field in DeniedIn(issues, x, {});
  }

  /** When no field is asked about and none denied, there were no conflicts and no findings. */
  lemma NothingOpenMeansValid(issues: seq<Issue>, x: Extraction, conflicts: seq<FieldConflict>)
    requires forall i :: i in issues ==> Blocking(i)
    requires !Identify(issues, x, conflicts).NeedsClarification() && !Identify(issues, x, conflicts).IsStuck()
    ensures issues == [] && conflicts == []
  {
    var gaps, clashes := FromIssues(issues, x, FieldsOf(conflicts)), FromConflicts(conflicts);
    SortIsPermutation(gaps + clashes, CanonicalOrder());
    assert |gaps| + |clashes| == 0;
    FromConflictsMembers(conflicts);
    assert FieldsOf(conflicts) == {};
    if issues != [] {
      SomeMember(issues);
      var i :| i in issues;
      EveryFindingIsAccountedFor(issues, x, i);
    }
  }

  // ----- the message --------------------------------------------------------

  datatype Question = Question(number: nat, item: UnresolvedField)

  /** One message: what is missing in one paragraph, contradictions in another. */
  datatype Message = Message(unresolved: seq<UnresolvedField>, gaps: seq<Question>, clashes: seq<Question>)

  ghost function WithConflict(us: seq<UnresolvedField>, wanted: bool): seq<UnresolvedField> {
    if us == [] then []
    else WithConflict(us[..|us| - 1], wanted)
         + if us[|us| - 1].reason.AskConflict? == wanted then [us[|us| - 1]] else []
  }

  ghost function Numbered(items: seq<UnresolvedField>, first: nat): (r: seq<Question>)
    ensures |r| == |items|
    ensures forall k :: 0 <= k < |items| ==> r[k] == Question(first + k, items[k])
  {
    seq(|items|, k requires 0 <= k < |items| => Question(first + k, items[k]))
  }

  ghost function Composed(us: seq<UnresolvedField>): Option<Message> {
    if us == [] then None
    else
      var asks, clashes := WithConflict(us, false), WithConflict(us, true);
      Some(Message(us, Numbered(asks, 1), Numbered(clashes, |asks| + 1)))
  }

  method SplitByConflict(us: seq<UnresolvedField>) returns (asks: seq<UnresolvedField>, clashes: seq<UnresolvedField>)
    ensures asks == WithConflict(us, false) && clashes == WithConflict(us, true)
  {
    asks, clashes := [], [];
    for n := 0 to |us|
      invariant asks == WithConflict(us[..n], false) && clashes == WithConflict(us[..n], true)
    {
      assert us[..n + 1][..n] == us[..n];
      if us[n].reason.AskConflict? {
        clashes := clashes + [us[n]];
      } else {
        asks := asks + [us[n]];
      }
    }
    assert us[..|us|] == us;
  }

  /** One paragraph, numbered on from `number`. */
  method WriteParagraph(items: seq<UnresolvedField>, number: nat) returns (questions: seq<Question>, next: nat)
    ensures questions == Numbered(items, number) && next == number + |items|
  {
    questions, next := [], number;
    for n := 0 to |items|
      invariant next == number + n && |questions| == n
      invariant forall k :: 0 <= k < n ==> questions[k] == Question(number + k, items[k])
    {
      questions := questions + [Question(next, items[n])];
      next := next + 1;
    }
  }

  method ComposeClarification(us: seq<UnresolvedField>) returns (r: Option<Message>)
    ensures r == Composed(us)
  {
    if us == [] {
      return None;
    }
    var asks, clashes := SplitByConflict(us);
    var number := 1;
    var first: seq<Question>, second: seq<Question>;
    first, number := WriteParagraph(asks, number);
    second, number := WriteParagraph(clashes, number);
    r := Some(Message(us, first, second));
  }

  lemma {:induction false} SplitKeepsEverything(us: seq<UnresolvedField>)
    ensures |WithConflict(us, false)| + |WithConflict(us, true)| == |us|
    ensures forall u :: u in WithConflict(us, false) <==> u in us && !u.reason.AskConflict?
    ensures forall u :: u in WithConflict(us, true) <==> u in us && u.reason.AskConflict?
  {
    if us == [] {
    } else {
      var before, last := us[..|us| - 1], us[|us| - 1];
      SplitKeepsEverything(before);
      assert us == before + [last];
    }
  }

  ghost function ConflictsAmong(us: seq<UnresolvedField>): nat {
    if us == [] then 0
    else ConflictsAmong(us[..|us| - 1]) + if us[|us| - 1].reason.AskConflict? then 1 else 0
  }

  lemma {:induction false} CountsOfTheSplit(us: seq<UnresolvedField>)
    ensures |WithConflict(us, true)| == ConflictsAmong(us) <= |us|
    ensures |WithConflict(us, false)| == |us| - ConflictsAmong(us)
  {
    if us != [] {
      CountsOfTheSplit(us[..|us| - 1]);
    }
  }

  lemma {:induction false} SplitKeepsTheOrder(us: seq<UnresolvedField>, wanted: bool, i: nat)
    requires i < |us| && us[i].reason.AskConflict? == wanted
    ensures |WithConflict(us[..i], wanted)| < |WithConflict(us, wanted)|
    ensures WithConflict(us, wanted)[|WithConflict(us[..i], wanted)|] == us[i]
  {
    var init := us[..|us| - 1];
    if i < |init| {
      SplitKeepsTheOrder(init, wanted, i);
      assert init[..i] == us[..i];
    }
  }

  /** The number of each item: what is open is asked first, in the order of the list, and the contradictions after that,
      in theirs. */
  lemma WhichNumberEachItemGets(us: seq<UnresolvedField>, i: nat)
    requires i < |us|
    ensures var m, before := Composed(us).value, ConflictsAmong(us[..i]);
            var open := |us| - ConflictsAmong(us);
            && m.unresolved == us && 0 <= before <= i && |m.gaps| == open && |m.clashes| == ConflictsAmong(us)
            && if us[i].reason.AskConflict?
               then before < |m.clashes| && m.clashes[before] == Question(open + before + 1, us[i])
               else i - before < |m.gaps| && m.gaps[i - before] == Question(i - before + 1, us[i])
  {
    CountsOfTheSplit(us);
    CountsOfTheSplit(us[..i]);
    SplitKeepsTheOrder(us, us[i].reason.AskConflict?, i);
  }

  /** As many questions as unresolved items, numbered 1 to n without a gap across the two
      paragraphs; every item is asked; contradictions, and only they, are in the second. */
  lemma QuestionsAreNumberedOneToN(us: seq<UnresolvedField>)
    requires us != []
    ensures var m := Composed(us).value; var qs := m.gaps + m.clashes;
            && |qs| == |us|
            && (forall k :: 0 <= k < |qs| ==> qs[k].number == k + 1 && qs[k].item in us)
            && (forall k :: 0 <= k < |m.gaps| ==> !m.gaps[k].item.reason.AskConflict?)
            && (forall k :: 0 <= k < |m.clashes| ==> m.clashes[k].item.reason.AskConflict?)
    ensures forall u :: u in us ==> QuestionAbout(Composed(us).value, u)
  {
    var asks, clashes := WithConflict(us, false), WithConflict(us, true);
    SplitKeepsEverything(us);
    var m := Composed(us).value;
    forall k | 0 <= k < |asks| ensures m.gaps[k].item in us && !m.gaps[k].item.reason.AskConflict? {
      assert asks[k] in asks;
    }
    forall k | 0 <= k < |clashes| ensures m.clashes[k].item in us && m.clashes[k].item.reason.AskConflict? {
      assert clashes[k] in clashes;
    }
    forall u | u in us ensures QuestionAbout(m, u) {
      if u in asks {
        var k :| 0 <= k < |asks| && asks[k] == u;
        assert m.gaps[k].item == u;
      } else {
        assert u in clashes;
        var k :| 0 <= k < |clashes| && clashes[k] == u;
        assert m.clashes[k].item == u;
      }
    }
  }

  /** Some question of the message is about `u`. */
  ghost predicate QuestionAbout(m: Message, u: UnresolvedField) {
    || (exists k :: 0 <= k < |m.gaps| && m.gaps[k].item == u)
    || (exists k :: 0 <= k < |m.clashes| && m.clashes[k].item == u)
  }
}
