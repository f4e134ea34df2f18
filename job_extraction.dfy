/**
 * `get_job_detail_ids`: after the page is ready, walk every `<div>` and every
 * `<a>` inside it and keep the anchors that are job-card title links with a
 * well-shaped id.  The page is data: a sequence of divs, each the (fallible)
 * result of looking up its anchors, and each anchor its three fallible reads.
 */
module JobExtraction {
  import opened Browser
  import opened JobId
  import opened ElementWait

  /** The `data-cy` value that marks a job card's title link. */
  const CardTitleLink: string := "card-title-link"

  /** The job-detail URL template, `https://dice.com/job-detail/{id}`. */
  const JobDetailPrefix: string := "https://dice.com/job-detail/"

  /** The page-readiness budget, `Duration::from_secs(30)`, in milliseconds. */
  const PageReadyTimeoutMs: nat := 30000

  /** An `<a>` element as seen through `a.attr("data-cy")`, `a.attr("id")` and `a.text()`. */
  datatype Anchor = Anchor(dataCy: Res<Option<string>>, id: Res<Option<string>>, text: Res<string>)

  /** A `<div>` element as seen through `div.find_all(By::Css("a"))`. */
  datatype Div = Div(anchors: Res<seq<Anchor>>)

  /** The body of the inner loop: the job one anchor contributes, if any.
      Every failed read and every mismatch is skipped without an error. */
  function AnchorJob(a: Anchor, pageNumber: nat): Option<Job>
  {
    match a.dataCy
    case Ok(Some(dataCy)) =>
      if dataCy != CardTitleLink then None
      else
        (match a.id
         case Ok(Some(id)) =>
           if !IsJobId(id) then None
           else
             (match a.text
              case Ok(title) => Some(Job(pageNumber, title, JobDetailPrefix + id))
              case Err(_) => None)
         case _ => None)
    case _ => None
  }

  /** The jobs the inner loop pushes for one div's anchors, in anchor order. */
  function AnchorsJobs(anchors: seq<Anchor>, pageNumber: nat): seq<Job>
  {
    if anchors == [] then []
    else
      var last := anchors[|anchors| - 1];
      AnchorsJobs(anchors[..|anchors| - 1], pageNumber) +
        match AnchorJob(last, pageNumber) case Some(j) => [j] case None => []
  }

  /** The nested loop over all divs: the first div whose anchor lookup fails
      ends the extraction with that error; otherwise the jobs of all divs in
      div order. */
  function DivsJobs(divs: seq<Div>, pageNumber: nat): Res<seq<Job>>
  {
    if divs == [] then Ok([])
    else
      match DivsJobs(divs[..|divs| - 1], pageNumber)
      case Err(e) => Err(e)
      case Ok(jobs) =>
        match divs[|divs| - 1].anchors
        case Err(e) => Err(e)
        case Ok(anchors) => Ok(jobs + AnchorsJobs(anchors, pageNumber))
  }

  /** The anchor is a job card: its `data-cy` is the title-link marker, its id
      is well shaped and its text could be read. */
  predicate IsJobCard(a: Anchor)
  {
    a.dataCy == Ok(Some(CardTitleLink)) &&
    a.id.Ok? && a.id.value.Some? && IsJobId(a.id.value.value) &&
    a.text.Ok?
  }

  /** What a job produced from page `pageNumber` looks like. */
  predicate IsPageJob(j: Job, pageNumber: nat)
  {
    j.pageNumber == pageNumber &&
    |JobDetailPrefix| < |j.url| && j.url[..|JobDetailPrefix|] == JobDetailPrefix &&
    IsJobId(j.url[|JobDetailPrefix|..])
  }

  /** An anchor contributes a job exactly when it is a job card, and the job
      carries the page number, the anchor's text and the URL built from its id. */
  lemma AnchorContributesIff(a: Anchor, pageNumber: nat)
    ensures AnchorJob(a, pageNumber).Some? <==> IsJobCard(a)
    ensures IsJobCard(a) ==>
              AnchorJob(a, pageNumber) ==
              Some(Job(pageNumber, a.text.value, JobDetailPrefix + a.id.value.value))
  {
  }

  /** Every job is well formed for its page. */
  lemma AnchorJobShape(a: Anchor, pageNumber: nat)
    requires AnchorJob(a, pageNumber).Some?
    ensures IsPageJob(AnchorJob(a, pageNumber).value, pageNumber)
  {
    var id := a.id.value.value;
    var url := JobDetailPrefix + id;
    assert url[..|JobDetailPrefix|] == JobDetailPrefix;
    assert url[|JobDetailPrefix|..] == id;
    JobIdLength(id);
  }

  /** The inner loop over a concatenation emits the jobs of the first part and
      then those of the second: order is kept and nothing is merged. */
  lemma {:induction false} AnchorsJobsAppend(xs: seq<Anchor>, ys: seq<Anchor>, pageNumber: nat)
    ensures AnchorsJobs(xs + ys, pageNumber) == AnchorsJobs(xs, pageNumber) + AnchorsJobs(ys, pageNumber)
    decreases |ys|
  {
    if ys == [] {
      assert xs + ys == xs;
    } else {
      var ys' := ys[..|ys| - 1];
      assert (xs + ys)[..|xs + ys| - 1] == xs + ys';
      assert (xs + ys)[|xs + ys| - 1] == ys[|ys| - 1];
      AnchorsJobsAppend(xs, ys', pageNumber);
    }
  }

  /** A job is emitted exactly when some anchor produces it. */
  lemma {:induction false} AnchorsJobsMembers(anchors: seq<Anchor>, pageNumber: nat, j: Job)
    ensures j in AnchorsJobs(anchors, pageNumber) <==>
              exists k :: 0 <= k < |anchors| && AnchorJob(anchors[k], pageNumber) == Some(j)
    decreases |anchors|
  {
    if anchors != [] {
      var init := anchors[..|anchors| - 1];
      AnchorsJobsMembers(init, pageNumber, j);
      if j in AnchorsJobs(init, pageNumber) {
        var k :| 0 <= k < |init| && AnchorJob(init[k], pageNumber) == Some(j);
        assert anchors[k] == init[k];
      }
      if exists k :: 0 <= k < |anchors| && AnchorJob(anchors[k], pageNumber) == Some(j) {
        var k :| 0 <= k < |anchors| && AnchorJob(anchors[k], pageNumber) == Some(j);
        if k < |init| {
          assert init[k] == anchors[k];
        }
      }
    }
  }

  /** A div emits at most one job per anchor. */
  lemma {:induction false} AnchorsJobsLength(anchors: seq<Anchor>, pageNumber: nat)
    ensures |AnchorsJobs(anchors, pageNumber)| <= |anchors|
    decreases |anchors|
  {
    if anchors != [] {
      AnchorsJobsLength(anchors[..|anchors| - 1], pageNumber);
    }
  }

  /** Every job a div emits is a well formed job of the page. */
  lemma AnchorsJobsShape(anchors: seq<Anchor>, pageNumber: nat)
    ensures forall j :: j in AnchorsJobs(anchors, pageNumber) ==> IsPageJob(j, pageNumber)
  {
    forall j | j in AnchorsJobs(anchors, pageNumber)
      ensures IsPageJob(j, pageNumber)
    {
      AnchorsJobsMembers(anchors, pageNumber, j);
      var k :| 0 <= k < |anchors| && AnchorJob(anchors[k], pageNumber) == Some(j);
      AnchorJobShape(anchors[k], pageNumber);
    }
  }

  /** The number of anchors on the page whose lookup succeeded. */
  function AnchorTotal(divs: seq<Div>): nat
  {
    if divs == [] then 0
    else
      AnchorTotal(divs[..|divs| - 1]) +
        match divs[|divs| - 1].anchors case Ok(anchors) => |anchors| case Err(_) => 0
  }

  /** The extraction emits at most one job per anchor reached, and every job
      it emits is well formed for the page. */
  lemma {:induction false} DivsJobsBounded(divs: seq<Div>, pageNumber: nat)
    requires DivsJobs(divs, pageNumber).Ok?
    ensures |DivsJobs(divs, pageNumber).value| <= AnchorTotal(divs)
    ensures forall j :: j in DivsJobs(divs, pageNumber).value ==> IsPageJob(j, pageNumber)
    decreases |divs|
  {
    if divs != [] {
      var init := divs[..|divs| - 1];
      DivsJobsBounded(init, pageNumber);
      var anchors := divs[|divs| - 1].anchors.value;
      AnchorsJobsLength(anchors, pageNumber);
      AnchorsJobsShape(anchors, pageNumber);
    }
  }

  /** The extraction fails exactly when some div's anchor lookup fails, and
      then with the error of the first such div. */
  lemma {:induction false} DivsJobsFails(divs: seq<Div>, pageNumber: nat)
    ensures DivsJobs(divs, pageNumber).Err? <==> exists k :: 0 <= k < |divs| && divs[k].anchors.Err?
    ensures DivsJobs(divs, pageNumber).Err? ==>
              exists k :: 0 <= k < |divs| && divs[k].anchors == Err(DivsJobs(divs, pageNumber).error) &&
                forall i :: 0 <= i < k ==> divs[i].anchors.Ok?
    decreases |divs|
  {
    if divs != [] {
      var init := divs[..|divs| - 1];
      var last := divs[|divs| - 1];
      DivsJobsFails(init, pageNumber);
      assert forall i :: 0 <= i < |init| ==> divs[i] == init[i];
      if DivsJobs(init, pageNumber).Err? {
        var k :| 0 <= k < |init| && init[k].anchors == Err(DivsJobs(init, pageNumber).error) &&
                 forall i :: 0 <= i < k ==> init[i].anchors.Ok?;
        assert divs[k] == init[k];
      } else if last.anchors.Err? {
        assert divs[|divs| - 1] == last;
      } else {
        forall k | 0 <= k < |divs|
          ensures divs[k].anchors.Ok?
        {
          if k < |init| {
            assert divs[k] == init[k];
          }
        }
      }
    }
  }

  /** One job card alone yields exactly its job. */
  lemma SingleCard(a: Anchor, pageNumber: nat)
    requires IsJobCard(a)
    ensures AnchorsJobs([a], pageNumber) == [AnchorJob(a, pageNumber).value]
  {
    AnchorContributesIff(a, pageNumber);
    assert [a][..0] == [];
  }

  /** Doubling an anchor doubles its job; the extraction does not deduplicate. */
  lemma DuplicatesKept(a: Anchor, pageNumber: nat)
    requires IsJobCard(a)
    ensures var j := AnchorJob(a, pageNumber).value;
            AnchorsJobs([a, a], pageNumber) == [j, j]
  {
    SingleCard(a, pageNumber);
    AnchorsJobsAppend([a], [a], pageNumber);
    assert [a] + [a] == [a, a];
  }

  /** An anchor reached through two divs is emitted once per div, in div order. */
  lemma DuplicateAcrossDivs(a: Anchor, b: Anchor, pageNumber: nat)
    requires IsJobCard(a) && IsJobCard(b)
    ensures DivsJobs([Div(Ok([a, b])), Div(Ok([a]))], pageNumber) ==
              Ok([AnchorJob(a, pageNumber).value, AnchorJob(b, pageNumber).value, AnchorJob(a, pageNumber).value])
  {
    SingleCard(a, pageNumber);
    SingleCard(b, pageNumber);
    AnchorsJobsAppend([a], [b], pageNumber);
    assert [a] + [b] == [a, b];
    var first := [Div(Ok([a, b]))];
    assert first[..0] == [];
    assert DivsJobs(first, pageNumber) == Ok([] + AnchorsJobs([a, b], pageNumber));
    assert [] + AnchorsJobs([a, b], pageNumber) == AnchorsJobs([a, b], pageNumber);
    var divs := [Div(Ok([a, b])), Div(Ok([a]))];
    assert divs[..1] == first;
    assert DivsJobs(divs, pageNumber) == Ok(AnchorsJobs([a, b], pageNumber) + AnchorsJobs([a], pageNumber));
    var ja, jb := AnchorJob(a, pageNumber).value, AnchorJob(b, pageNumber).value;
    assert AnchorsJobs([a, b], pageNumber) == [ja] + [jb];
    assert [ja] + [jb] + [ja] == [ja, jb, ja];
  }

  /** A title-link card yields the job-detail URL of its id when the id is
      well shaped. */
  lemma CardWithId(id: string, title: string, pageNumber: nat)
    requires IsJobId(id)
    ensures AnchorJob(Anchor(Ok(Some(CardTitleLink)), Ok(Some(id)), Ok(title)), pageNumber) ==
              Some(Job(pageNumber, title, JobDetailPrefix + id))
  {
  }

  /** The job-detail URL of the sample id, spelled out. */
  lemma UrlOfSample()
    ensures JobDetailPrefix + "f0767d15-68a2-4c23-95c6-5685dedf2d2d" == "https://dice.com/job-detail/f0767d15-68a2-4c23-95c6-5685dedf2d2d"
  {
  }

  /** The job card with the sample id yields its job-detail URL. */
  lemma SampleCardAccepted(title: string, pageNumber: nat)
    ensures AnchorJob(Anchor(Ok(Some(CardTitleLink)), Ok(Some("f0767d15-68a2-4c23-95c6-5685dedf2d2d")), Ok(title)), pageNumber) ==
              Some(Job(pageNumber, title, "https://dice.com/job-detail/f0767d15-68a2-4c23-95c6-5685dedf2d2d"))
  {
    var id := "f0767d15-68a2-4c23-95c6-5685dedf2d2d";
    SampleIdAccepted();
    CardWithId(id, title, pageNumber);
    assert JobDetailPrefix + id == "https://dice.com/job-detail/f0767d15-68a2-4c23-95c6-5685dedf2d2d" by {
      UrlOfSample();
    }
  }

  /** The same card with id "not-a-uuid" yields nothing. */
  lemma MalformedIdSkipped(title: string, pageNumber: nat)
    ensures AnchorJob(Anchor(Ok(Some(CardTitleLink)), Ok(Some("not-a-uuid")), Ok(title)), pageNumber) == None
  {
    NotAUuidRejected();
  }

  /** The inner `for a in a_elements` loop: push the job of every job-card
      anchor of one div onto `jobs`, in anchor order. */
  method PushCardJobs(anchors: seq<Anchor>, pageNumber: nat, jobs0: seq<Job>) returns (jobs: seq<Job>)
    ensures jobs == jobs0 + AnchorsJobs(anchors, pageNumber)
  {
    jobs := jobs0;
    var k := 0;
    while k < |anchors|
      invariant 0 <= k <= |anchors|
      invariant jobs == jobs0 + AnchorsJobs(anchors[..k], pageNumber)
    {
      assert anchors[..k + 1][..k] == anchors[..k];
      var a := anchors[k];
      match a.dataCy {
        case Ok(Some(dataCy)) =>
          if dataCy == CardTitleLink {
            match a.id {
              case Ok(Some(id)) =>
                if IsJobId(id) {
                  match a.text {
                    case Ok(title) =>
                      jobs := jobs + [Job(pageNumber, title, JobDetailPrefix + id)];
                    case Err(_) =>
                  }
                }
              case _ =>
            }
          }
        case _ =>
      }
      k := k + 1;
    }
    assert anchors[..k] == anchors;
  }

  /** `get_job_detail_ids(driver, page_number)`: wait up to 30 s for a `<div>`,
      look up all divs, then push one job per job-card anchor. `ready` is what
      the page does during the wait; `page` is the result of
      `find_all(By::Css("div"))`. */
  method GetJobDetailIds(ready: Schedule, page: Res<seq<Div>>, pageNumber: nat) returns (r: Res<seq<Job>>)
    ensures !WithinBudget(ready, PageReadyTimeoutMs) ==> r == Err(Timeout(TimeoutMessage))
    ensures WithinBudget(ready, PageReadyTimeoutMs) && page.Err? ==> r == Err(page.error)
    ensures WithinBudget(ready, PageReadyTimeoutMs) && page.Ok? ==> r == DivsJobs(page.value, pageNumber)
  {
    var waited, _, _ := WaitForElement(ready, PageReadyTimeoutMs);
    if waited.Err? {
      return Err(waited.error);
    }
    if page.Err? {
      return Err(page.error);
    }
    var divs := page.value;
    var jobs: seq<Job> := [];
    var i := 0;
    while i < |divs|
      invariant 0 <= i <= |divs|
      invariant DivsJobs(divs[..i], pageNumber) == Ok(jobs)
    {
      assert divs[..i + 1][..i] == divs[..i];
      if divs[i].anchors.Err? {
        r := Err(divs[i].anchors.error);
        DivsJobsPrefixError(divs, i + 1, pageNumber);
        return;
      }
      jobs := PushCardJobs(divs[i].anchors.value, pageNumber, jobs);
      i := i + 1;
    }
    assert divs[..i] == divs;
    r := Ok(jobs);
  }

  /** Once a prefix of the divs ends in an error, the whole extraction ends
      with that error. */
  lemma {:induction false} DivsJobsPrefixError(divs: seq<Div>, n: nat, pageNumber: nat)
    requires n <= |divs| && DivsJobs(divs[..n], pageNumber).Err?
    ensures DivsJobs(divs, pageNumber) == DivsJobs(divs[..n], pageNumber)
    decreases |divs| - n
  {
    if n < |divs| {
      assert divs[..n + 1][..n] == divs[..n];
      DivsJobsPrefixError(divs, n + 1, pageNumber);
    } else {
      assert divs[..n] == divs;
    }
  }
}
