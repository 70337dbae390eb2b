/**
 * The stop resolver and the catalogue queries built on it: a query is
 * matched against the catalogue by four strictly ordered stages (numeric
 * id, gtfs code ignoring case, sanitised gtfs code, partial code or name),
 * each returning the first stop that matches; the set of gtfs codes, a
 * sample of them for the log, and the set of static stop identifiers.
 *
 * The catalogue is a sequence of possibly-null stops: the cache-hit path
 * decodes JSON nulls as null stops. Case mapping is ASCII only.
 */
module StopLookup {
  import opened Wrappers
  import opened Text
  import opened StopDto
  import opened Fetcher

  /** A match stage and what it compares against. */
  datatype Stage =
    | ById(query: string)
    | ByCode(query: string, upper: string)
    | BySanitized(sanitized: string)
    | ByPartial(upper: string)

  /** Stage 4's test, with prefix and suffix written out as the source has them. */
  predicate PartialMatch(s: Stop, upper: string)
  {
    (s.gtfsCode.Some? &&
      (Contains(ToUpper(s.gtfsCode.value), upper) ||
       StartsWith(ToUpper(s.gtfsCode.value), upper) ||
       EndsWith(ToUpper(s.gtfsCode.value), upper))) ||
    (s.name.Some? && Contains(ToUpper(s.name.value), upper))
  }

  /**
   * Whether stop `s` matches at a stage. Stage 1 unboxes the id for its
   * comparison with zero, so a null id throws; a query that is not an
   * int matches no id.
   */
  function Test(stage: Stage, s: Stop): Result<bool, Failure>
  {
    match stage
    case ById(query) =>
      if s.id.None? then Fail(NullReference)
      else Ok(s.id.value != 0 && ParseInt(query) == Some(s.id.value))
    case ByCode(query, upper) =>
      Ok(s.gtfsCode.Some? &&
        (EqualsIgnoreCase(Trim(s.gtfsCode.value), query) || ToUpper(Trim(s.gtfsCode.value)) == upper))
    case BySanitized(sanitized) =>
      Ok(s.gtfsCode.Some? && Sanitize(ToUpper(Trim(s.gtfsCode.value))) == sanitized)
    case ByPartial(upper) =>
      Ok(PartialMatch(s, upper))
  }

  /** The prefix and suffix tests of stage 4 add nothing to its containment test. */
  lemma PartialMatchIsContainment(s: Stop, upper: string)
    ensures PartialMatch(s, upper) <==>
      (s.gtfsCode.Some? && Contains(ToUpper(s.gtfsCode.value), upper)) ||
      (s.name.Some? && Contains(ToUpper(s.name.value), upper))
  {
    if s.gtfsCode.Some? {
      AffixIsContained(ToUpper(s.gtfsCode.value), upper);
    }
  }

  /** The two tests of stage 2 agree: a trimmed code equals the query ignoring case exactly when their upper cases are equal. */
  lemma CodeStageIsCaseInsensitive(s: Stop, query: string)
    requires s.gtfsCode.Some?
    ensures Test(ByCode(query, ToUpper(query)), s) == Ok(EqualsIgnoreCase(Trim(s.gtfsCode.value), query))
  {
    EqualsIgnoreCaseIffSameUpper(Trim(s.gtfsCode.value), query);
  }

  /** The test a stage applies to each non-null stop. */
  type StopTest = Stop -> Result<bool, Failure>

  function TestOf(stage: Stage): StopTest
  {
    s => Test(stage, s)
  }

  /** Position `j` lets a stage's loop go on: a null stop, or a stop the test rejects. */
  predicate Passes(all: seq<StopRef>, test: StopTest, j: int)
    requires 0 <= j < |all|
  {
    all[j].None? || test(all[j].value) == Ok(false)
  }

  /** Position `k` is where a stage's loop stops, looking from `i`: the first stop that matches or throws. */
  predicate StopsAt(all: seq<StopRef>, test: StopTest, i: int, k: int)
    requires 0 <= i
  {
    i <= k < |all| && !Passes(all, test, k) &&
    forall j :: i <= j < k ==> Passes(all, test, j)
  }

  /** One stage's loop from position `i`: the first stop that matches, none, or the failure of a test. */
  function ScanFrom(all: seq<StopRef>, test: StopTest, i: nat): Result<Option<Stop>, Failure>
    requires i <= |all|
    decreases |all| - i
  {
    if i == |all| then Ok(None)
    else if all[i].None? then ScanFrom(all, test, i + 1)
    else match test(all[i].value)
      case Fail(f) => Fail(f)
      case Ok(hit) => if hit then Ok(Some(all[i].value)) else ScanFrom(all, test, i + 1)
  }

  /** A stage's loop over the whole catalogue. */
  function Scan(all: seq<StopRef>, stage: Stage): Result<Option<Stop>, Failure>
  {
    ScanFrom(all, TestOf(stage), 0)
  }

  /** A stage gives none exactly when every stop from `i` on passes. */
  lemma {:induction false} ScanNoneIffAllPass(all: seq<StopRef>, test: StopTest, i: nat)
    requires i <= |all|
    ensures ScanFrom(all, test, i) == Ok(None) <==> forall j :: i <= j < |all| ==> Passes(all, test, j)
    decreases |all| - i
  {
    if i < |all| {
      ScanNoneIffAllPass(all, test, i + 1);
      if ScanFrom(all, test, i) == Ok(None) {
        forall j | i <= j < |all|
          ensures Passes(all, test, j)
        {
          if j > i {
            assert i + 1 <= j;
          }
        }
      } else if Passes(all, test, i) {
        assert ScanFrom(all, test, i) == ScanFrom(all, test, i + 1);
      }
    }
  }

  /** Otherwise a stage gives the first stop that does not pass, or the failure of its test. */
  lemma {:induction false} ScanStopsAtFirst(all: seq<StopRef>, test: StopTest, i: nat, k: nat)
    requires i <= |all| && StopsAt(all, test, i, k)
    ensures ScanFrom(all, test, i) == (match test(all[k].value) case Fail(f) => Fail(f) case Ok(_) => Ok(all[k]))
    decreases |all| - i
  {
    if k > i {
      assert Passes(all, test, i);
      ScanStopsAtFirst(all, test, i + 1, k);
    }
  }

  /** Both halves, from position `i`. */
  lemma ScanFromCharacterised(all: seq<StopRef>, test: StopTest, i: nat)
    requires i <= |all|
    ensures ScanFrom(all, test, i) == Ok(None) <==> forall j :: i <= j < |all| ==> Passes(all, test, j)
    ensures forall k :: StopsAt(all, test, i, k) ==>
      ScanFrom(all, test, i) == (match test(all[k].value) case Fail(f) => Fail(f) case Ok(_) => Ok(all[k]))
  {
    ScanNoneIffAllPass(all, test, i);
    forall k | StopsAt(all, test, i, k)
      ensures ScanFrom(all, test, i) == (match test(all[k].value) case Fail(f) => Fail(f) case Ok(_) => Ok(all[k]))
    {
      ScanStopsAtFirst(all, test, i, k);
    }
  }

  /** When not every stop from `i` on passes, there is a first one that does not. */
  lemma {:induction false} FirstStop(all: seq<StopRef>, test: StopTest, i: nat) returns (k: nat)
    requires i <= |all| && exists j :: i <= j < |all| && !Passes(all, test, j)
    ensures StopsAt(all, test, i, k)
    decreases |all| - i
  {
    if Passes(all, test, i) {
      k := FirstStop(all, test, i + 1);
    } else {
      k := i;
    }
  }

  /** What a stage finds is a catalogue stop that matches, and every stop before it passes. */
  lemma ScanFindsFirstMatch(all: seq<StopRef>, stage: Stage)
    ensures Scan(all, stage).Ok? && Scan(all, stage).value.Some? ==>
      exists k :: StopsAt(all, TestOf(stage), 0, k) && all[k] == Scan(all, stage).value &&
        Test(stage, all[k].value) == Ok(true)
    ensures Scan(all, stage).Fail? ==>
      exists k :: StopsAt(all, TestOf(stage), 0, k) && Test(stage, all[k].value) == Fail(Scan(all, stage).error)
  {
    var test := TestOf(stage);
    ScanFromCharacterised(all, test, 0);
    if Scan(all, stage) != Ok(None) {
      var k := FirstStop(all, test, 0);
      assert test(all[k].value) == Test(stage, all[k].value);
    }
  }

  // ---------------------------------------------------------------------------
  // getStop

  /**
   * `getStop(stopId)` over the catalogue `all`: null or blank gives null;
   * otherwise the trimmed query goes through the four stages in order, the
   * sanitised stage only when sanitising changes the upper-cased query.
   */
  function Resolve(all: seq<StopRef>, stopId: Option<string>): (r: Result<Option<Stop>, Failure>)
    ensures stopId.None? || IsBlank(stopId.value) ==> r == Ok(None)
  {
    if stopId.None? then Ok(None)
    else
      var query := Trim(stopId.value);
      if query == "" then Ok(None) else Cascade(all, query, ToUpper(query))
  }

  /**
   * The four stages for the trimmed query and its upper case: a stop or a
   * failure of stage 1 ends the search; each later stage is tried only when
   * the ones before found nothing.
   */
  function Cascade(all: seq<StopRef>, query: string, upper: string): Result<Option<Stop>, Failure>
  {
    match Scan(all, ById(query))
    case Fail(f) => Fail(f)
    case Ok(Some(s)) => Ok(Some(s))
    case Ok(None) =>
      var byCode := Scan(all, ByCode(query, upper));
      if byCode != Ok(None) then byCode
      else
        var sanitized := Sanitize(upper);
        var bySanitized := if sanitized != upper then Scan(all, BySanitized(sanitized)) else Ok(None);
        if bySanitized != Ok(None) then bySanitized
        else Scan(all, ByPartial(upper))
  }

  /** The stages for the trimmed query and its upper case, in order. */
  function StagesOf(query: string, upper: string): seq<Stage>
  {
    var sanitized := Sanitize(upper);
    [ById(query), ByCode(query, upper)] +
    (if sanitized != upper then [BySanitized(sanitized)] else []) +
    [ByPartial(upper)]
  }

  /** The stages a non-blank query goes through, in order. */
  function Stages(stopId: string): seq<Stage>
  {
    var query := Trim(stopId);
    StagesOf(query, ToUpper(query))
  }

  /** Whether a stop matches at some stage of the query. */
  predicate MatchesSomeStage(s: Stop, stopId: string)
  {
    exists g :: g in Stages(stopId) && Test(g, s) == Ok(true)
  }

  /** The stages tried in order: the first answer that is not null (a stop or a failure), else null. */
  function FirstAnswer(all: seq<StopRef>, stages: seq<Stage>): Result<Option<Stop>, Failure>
    decreases |stages|
  {
    if stages == [] then Ok(None)
    else
      var r := Scan(all, stages[0]);
      if r != Ok(None) then r else FirstAnswer(all, stages[1..])
  }

  /** One step of `FirstAnswer`. */
  lemma FirstAnswerCons(all: seq<StopRef>, g: Stage, rest: seq<Stage>)
    ensures FirstAnswer(all, [g] + rest) ==
      if Scan(all, g) != Ok(None) then Scan(all, g) else FirstAnswer(all, rest)
  {
    assert ([g] + rest)[1..] == rest;
  }

  /** The cascade tries the stages in order. */
  lemma CascadeIsFirstAnswer(all: seq<StopRef>, query: string, upper: string)
    ensures Cascade(all, query, upper) == FirstAnswer(all, StagesOf(query, upper))
  {
    var sanitized := Sanitize(upper);
    var partial := [ByPartial(upper)];
    FirstAnswerCons(all, ByPartial(upper), []);
    var tail := if sanitized != upper then [BySanitized(sanitized)] + partial else partial;
    FirstAnswerCons(all, BySanitized(sanitized), partial);
    assert StagesOf(query, upper) == [ById(query)] + ([ByCode(query, upper)] + tail);
    FirstAnswerCons(all, ByCode(query, upper), tail);
    FirstAnswerCons(all, ById(query), [ByCode(query, upper)] + tail);
  }

  /** A non-blank query is resolved by trying its stages in order. */
  lemma ResolveIsFirstAnswer(all: seq<StopRef>, stopId: string)
    requires !IsBlank(stopId)
    ensures Resolve(all, Some(stopId)) == FirstAnswer(all, Stages(stopId))
  {
    var query := Trim(stopId);
    assert query != "";
    CascadeIsFirstAnswer(all, query, ToUpper(query));
  }

  /** Trying stages in order gives null exactly when every stage does. */
  lemma {:induction false} FirstAnswerNone(all: seq<StopRef>, stages: seq<Stage>)
    ensures FirstAnswer(all, stages) == Ok(None) <==> forall g :: g in stages ==> Scan(all, g) == Ok(None)
    decreases |stages|
  {
    if stages != [] {
      FirstAnswerNone(all, stages[1..]);
      assert forall g :: g in stages <==> g == stages[0] || g in stages[1..];
    }
  }

  /** An answer that is not null is the answer of one of the stages. */
  lemma {:induction false} FirstAnswerFromStage(all: seq<StopRef>, stages: seq<Stage>) returns (g: Stage)
    requires FirstAnswer(all, stages) != Ok(None)
    ensures g in stages && Scan(all, g) == FirstAnswer(all, stages)
    decreases |stages|
  {
    if Scan(all, stages[0]) != Ok(None) {
      g := stages[0];
    } else {
      g := FirstAnswerFromStage(all, stages[1..]);
    }
  }

  /** A resolved stop is in the catalogue and matches some stage of the query. */
  lemma ResolveIsSound(all: seq<StopRef>, stopId: string)
    ensures Resolve(all, Some(stopId)).Ok? && Resolve(all, Some(stopId)).value.Some? ==>
      Resolve(all, Some(stopId)).value in all && MatchesSomeStage(Resolve(all, Some(stopId)).value.value, stopId)
  {
    var r := Resolve(all, Some(stopId));
    if r.Ok? && r.value.Some? {
      ResolveIsFirstAnswer(all, stopId);
      var g := FirstAnswerFromStage(all, Stages(stopId));
      ScanFindsFirstMatch(all, g);
    }
  }

  /** Null comes back for a non-blank query exactly when every stage it goes through finds nothing. */
  lemma ResolveNoneIffEveryStageNone(all: seq<StopRef>, stopId: string)
    requires !IsBlank(stopId)
    ensures Resolve(all, Some(stopId)) == Ok(None) <==> forall g :: g in Stages(stopId) ==> Scan(all, g) == Ok(None)
  {
    ResolveIsFirstAnswer(all, stopId);
    FirstAnswerNone(all, Stages(stopId));
  }

  /** Null comes back for a non-blank query only when no catalogue stop matches at any stage. */
  lemma ResolveNoneMeansNoMatch(all: seq<StopRef>, stopId: string)
    requires !IsBlank(stopId)
    ensures Resolve(all, Some(stopId)) == Ok(None) <==>
      forall g, j :: g in Stages(stopId) && 0 <= j < |all| ==> Passes(all, TestOf(g), j)
  {
    ResolveNoneIffEveryStageNone(all, stopId);
    forall g | g in Stages(stopId)
      ensures Scan(all, g) == Ok(None) <==> forall j :: 0 <= j < |all| ==> Passes(all, TestOf(g), j)
    {
      ScanNoneIffAllPass(all, TestOf(g), 0);
    }
  }

  /** The only way to fail is stage 1 reaching a stop whose id is null. */
  lemma ResolveFailsOnNullId(all: seq<StopRef>, stopId: string)
    ensures Resolve(all, Some(stopId)).Fail? ==>
      Resolve(all, Some(stopId)).error == NullReference &&
      exists k :: StopsAt(all, TestOf(ById(Trim(stopId))), 0, k) && all[k].value.id.None?
  {
    var query := Trim(stopId);
    ScanFindsFirstMatch(all, ById(query));
    var upper := ToUpper(query);
    var sanitized := Sanitize(upper);
    ScanFromCharacterised(all, TestOf(ByCode(query, upper)), 0);
    ScanFromCharacterised(all, TestOf(BySanitized(sanitized)), 0);
    ScanFromCharacterised(all, TestOf(ByPartial(upper)), 0);
    ScanNeverFailsAfterStageOne(all, ByCode(query, upper), 0);
    ScanNeverFailsAfterStageOne(all, BySanitized(sanitized), 0);
    ScanNeverFailsAfterStageOne(all, ByPartial(upper), 0);
  }

  /** Stages 2 to 4 cannot throw. */
  lemma {:induction false} ScanNeverFailsAfterStageOne(all: seq<StopRef>, stage: Stage, i: nat)
    requires !stage.ById? && i <= |all|
    ensures ScanFrom(all, TestOf(stage), i).Ok?
    decreases |all| - i
  {
    if i < |all| {
      ScanNeverFailsAfterStageOne(all, stage, i + 1);
      assert all[i].Some? ==> TestOf(stage)(all[i].value).Ok?;
    }
  }

  /**
   * A numeric id match wins over every later stage: with a stop whose id is
   * 7 and gtfs code "ABC" in the catalogue, and every stop before it having
   * a non-null id other than 7, the query "7" gives that stop even though
   * another stop's name may contain "7".
   */
  lemma IdMatchTakesPriority(all: seq<StopRef>, k: nat)
    requires k < |all| && all[k].Some? && all[k].value.id == Some(7) && all[k].value.gtfsCode == Some("ABC")
    requires forall j :: 0 <= j < k && all[j].Some? ==> all[j].value.id.Some? && all[j].value.id.value != 7
    ensures Resolve(all, Some("7")) == Ok(all[k])
  {
    SevenIsItsOwnQuery();
    IdHitResolves(all, "7", 7, k);
  }

  /**
   * A query whose trimmed text parses as the non-zero int `n` resolves to
   * the first stop with id `n`, when every stop before it has a non-null id
   * other than `n`.
   */
  lemma IdHitResolves(all: seq<StopRef>, stopId: string, n: int32, k: nat)
    requires !IsBlank(stopId) && ParseInt(Trim(stopId)) == Some(n) && n != 0
    requires k < |all| && all[k].Some? && all[k].value.id == Some(n)
    requires forall j :: 0 <= j < k && all[j].Some? ==> all[j].value.id.Some? && all[j].value.id.value != n
    ensures Resolve(all, Some(stopId)) == Ok(all[k])
  {
    IdScanFinds(all, Trim(stopId), n, k);
    ResolveTakesIdHit(all, stopId);
  }

  /**
   * Stage 1 for a query that parses as the non-zero int `n` stops at the
   * first stop whose id is `n`, when every stop before it has a non-null
   * id other than `n`.
   */
  lemma IdScanFinds(all: seq<StopRef>, query: string, n: int32, k: nat)
    requires ParseInt(query) == Some(n) && n != 0
    requires k < |all| && all[k].Some? && all[k].value.id == Some(n)
    requires forall j :: 0 <= j < k && all[j].Some? ==> all[j].value.id.Some? && all[j].value.id.value != n
    ensures Scan(all, ById(query)) == Ok(all[k])
  {
    var test := TestOf(ById(query));
    forall j | 0 <= j < k
      ensures Passes(all, test, j)
    {
      if all[j].Some? {
        IdTestOnStop(query, n, all[j].value);
      }
    }
    IdTestOnStop(query, n, all[k].value);
    assert StopsAt(all, test, 0, k);
    ScanStopsAtFirst(all, test, 0, k);
  }

  /** The stage-1 test on one stop, for a query that parses as the non-zero int `n`. */
  lemma IdTestOnStop(query: string, n: int32, s: Stop)
    requires ParseInt(query) == Some(n) && n != 0
    ensures TestOf(ById(query))(s) == if s.id.None? then Fail(NullReference) else Ok(s.id.value == n)
  {
  }

  /** The query "7" is not blank, trims to itself and parses as the int 7. */
  lemma SevenIsItsOwnQuery()
    ensures !IsBlank("7") && ParseInt(Trim("7")) == Some(7)
  {
    assert "7"[0] > ' ';
    assert TrimStart("7") == "7";
    assert TrimEnd("7") == "7";
    assert AllDigits("7");
    assert DigitsValue("7") == 7;
  }

  /** A hit at stage 1 is the answer. */
  lemma ResolveTakesIdHit(all: seq<StopRef>, stopId: string)
    requires !IsBlank(stopId)
    requires Scan(all, ById(Trim(stopId))).Ok? && Scan(all, ById(Trim(stopId))).value.Some?
    ensures Resolve(all, Some(stopId)) == Scan(all, ById(Trim(stopId)))
  {
  }

  /** When no id matches, a gtfs code equal to the query up to case and surrounding blanks is found. */
  lemma CodeMatchIgnoresCase(all: seq<StopRef>, stopId: string, k: nat)
    requires !IsBlank(stopId)
    requires Scan(all, ById(Trim(stopId))) == Ok(None)
    requires k < |all| && all[k].Some? && all[k].value.gtfsCode.Some?
    requires ToUpper(Trim(all[k].value.gtfsCode.value)) == ToUpper(Trim(stopId))
    requires forall j :: 0 <= j < k ==> Passes(all, TestOf(ByCode(Trim(stopId), ToUpper(Trim(stopId)))), j)
    ensures Resolve(all, Some(stopId)) == Ok(all[k])
  {
    var query := Trim(stopId);
    assert StopsAt(all, TestOf(ByCode(query, ToUpper(query))), 0, k);
    ScanFromCharacterised(all, TestOf(ByCode(query, ToUpper(query))), 0);
  }

  // ---------------------------------------------------------------------------
  // listAllGtfsCodes, listAllGtfsCodesString, getAllStopIds

  /** `listAllGtfsCodes`: the non-empty gtfs codes of the non-null stops, as they are written. */
  function GtfsCodes(all: seq<StopRef>): (codes: set<string>)
    ensures forall c :: c in codes <==>
      exists i :: 0 <= i < |all| && all[i].Some? && all[i].value.gtfsCode == Some(c) && c != ""
  {
    set i | 0 <= i < |all| && all[i].Some? && all[i].value.gtfsCode.Some? && all[i].value.gtfsCode.value != "" ::
      all[i].value.gtfsCode.value
  }

  /** Every code `listAllGtfsCodes` lists is also a static identifier of `getAllStopIds`, whenever that call succeeds. */
  lemma GtfsCodesAreStopIds(all: seq<StopRef>)
    ensures StopIds(all).Ok? ==> GtfsCodes(all) <= StopIds(all).value
  {
    StopIdsCharacterised(all);
    if StopIds(all).Ok? {
      forall c | c in GtfsCodes(all)
        ensures c in StopIds(all).value
      {
        var i :| 0 <= i < |all| && all[i].Some? && all[i].value.gtfsCode == Some(c) && c != "";
        assert IdentifiedBy(all[i].value, c);
      }
    }
  }

  /** The StringBuilder of `listAllGtfsCodesString`: ", " goes before a part only when the text so far is not empty. */
  function Appended(parts: seq<string>): string
  {
    if parts == [] then ""
    else
      var before := Appended(parts[..|parts| - 1]);
      (if |before| > 0 then before + ", " else before) + parts[|parts| - 1]
  }

  /** Appending one more part to the builder. */
  lemma AppendedSnoc(parts: seq<string>, c: string)
    ensures Appended(parts + [c]) ==
      (if |Appended(parts)| > 0 then Appended(parts) + ", " else Appended(parts)) + c
  {
    assert (parts + [c])[..|parts|] == parts;
  }

  /** With no empty part, the builder's text is the parts joined with ", ". */
  lemma {:induction false} AppendedIsJoin(parts: seq<string>)
    requires forall i :: 0 <= i < |parts| ==> parts[i] != ""
    ensures Appended(parts) == Join(parts, ", ")
    ensures |parts| > 0 ==> |Appended(parts)| > 0
  {
    if |parts| > 0 {
      var init := parts[..|parts| - 1];
      AppendedIsJoin(init);
      if |init| > 0 {
        JoinSnoc(init, ", ", parts[|parts| - 1]);
        assert init + [parts[|parts| - 1]] == parts;
      } else {
        assert parts == [parts[0]];
      }
    }
  }

  /**
   * `listAllGtfsCodesString(limit)`: the first `limit` codes in the set's
   * iteration order, which the set leaves unspecified and is therefore a
   * choice here, appended to the builder. The codes taken are returned beside
   * the text.
   */
  method SampleCodes(codes: set<string>, limit: int) returns (text: string, sample: seq<string>)
    ensures |sample| == if limit <= 0 then 0 else if limit < |codes| then limit else |codes|
    ensures forall i :: 0 <= i < |sample| ==> sample[i] in codes
    ensures forall i, j :: 0 <= i < j < |sample| ==> sample[i] != sample[j]
    ensures text == Appended(sample)
  {
    var rest := codes;
    var i := 0;
    text := "";
    sample := [];
    while rest != {}
      invariant i == |sample| && (limit <= 0 ==> i == 0) && (limit > 0 ==> i <= limit)
      invariant rest <= codes && |rest| + |sample| == |codes|
      invariant forall m :: 0 <= m < |sample| ==> sample[m] in codes && sample[m] !in rest
      invariant forall m, n :: 0 <= m < n < |sample| ==> sample[m] != sample[n]
      invariant text == Appended(sample)
      decreases |rest|
    {
      var c :| c in rest;
      if i >= limit {
        break;
      }
      AppendedSnoc(sample, c);
      i := i + 1;
      if |text| > 0 {
        text := text + ", ";
      }
      text := text + c;
      sample := sample + [c];
      rest := rest - {c};
    }
  }

  /** The log line's sample: at most `limit` distinct codes of the catalogue, joined with ", ". */
  lemma SampleOfCatalogueIsJoined(all: seq<StopRef>, sample: seq<string>)
    requires forall i :: 0 <= i < |sample| ==> sample[i] in GtfsCodes(all)
    ensures Appended(sample) == Join(sample, ", ")
  {
    AppendedIsJoin(sample);
  }

  /**
   * `getAllStopIds`: the non-empty gtfs codes, as written, and the decimal
   * text of the non-zero ids. A null stop, or a stop with a null id, throws.
   */
  function StopIds(all: seq<StopRef>): Result<set<string>, Failure>
    decreases |all|
  {
    if all == [] then Ok({})
    else if all[0].None? || all[0].value.id.None? then Fail(NullReference)
    else
      var s := all[0].value;
      match StopIds(all[1..])
      case Fail(f) => Fail(f)
      case Ok(rest) =>
        Ok(rest +
          (if s.gtfsCode.Some? && s.gtfsCode.value != "" then {s.gtfsCode.value} else {}) +
          (if s.id.value != 0 then {IntText(s.id.value)} else {}))
  }

  /** Every stop is there and has an id. */
  predicate AllIdentified(all: seq<StopRef>)
  {
    forall i :: 0 <= i < |all| ==> all[i].Some? && all[i].value.id.Some?
  }

  /** The identifiers a stop contributes. */
  predicate IdentifiedBy(s: Stop, x: string)
    requires s.id.Some?
  {
    (s.gtfsCode == Some(x) && x != "") || (s.id.value != 0 && x == IntText(s.id.value))
  }

  /** The static identifiers are exactly the gtfs codes and non-zero ids of the stops, and they are read only when every stop and its id is there. */
  lemma {:induction false} StopIdsCharacterised(all: seq<StopRef>)
    ensures StopIds(all).Ok? <==> AllIdentified(all)
    ensures StopIds(all).Fail? ==> StopIds(all).error == NullReference
    ensures StopIds(all).Ok? ==> forall x :: x in StopIds(all).value <==>
      exists i :: 0 <= i < |all| && IdentifiedBy(all[i].value, x)
    decreases |all|
  {
    if all != [] {
      StopIdsCharacterised(all[1..]);
      assert forall i :: 1 <= i < |all| ==> all[1..][i - 1] == all[i];
      if StopIds(all).Ok? {
        var s := all[0].value;
        forall x
          ensures x in StopIds(all).value <==> exists i :: 0 <= i < |all| && IdentifiedBy(all[i].value, x)
        {
          if x in StopIds(all[1..]).value {
            var i :| 0 <= i < |all[1..]| && IdentifiedBy(all[1..][i].value, x);
            assert IdentifiedBy(all[i + 1].value, x);
          }
          if exists i :: 0 <= i < |all| && IdentifiedBy(all[i].value, x) {
            var i :| 0 <= i < |all| && IdentifiedBy(all[i].value, x);
            if i > 0 {
              assert IdentifiedBy(all[1..][i - 1].value, x);
            }
          }
        }
      }
    }
  }
}
