/** The job card on the careers page: which requirements it lists, the
    "+N more requirements" line, and the optional salary row. */
module JobCard {
  import opened Wrappers
  import opened FileData

  /** What the card shows of a job's details. */
  datatype CardView = CardView(
    shown: seq<string>,       // the listed requirements
    more: Option<nat>,        // N of the "+N more requirements" line, if it is there
    salaryRow: Option<string>,
    learnMore: string,        // the two link targets
    applyNow: string)

  function Card(job: Job): (v: CardView)
    ensures |v.shown| == if |job.requirements| < 3 then |job.requirements| else 3
    ensures v.shown == job.requirements[..|v.shown|]
    ensures v.more.Some? <==> |job.requirements| > 3
    ensures v.more.Some? ==> |v.shown| + v.more.value == |job.requirements|
    ensures v.salaryRow.Some? <==> Truthy(job.salary)
    ensures v.salaryRow.Some? ==> v.salaryRow == job.salary
  {
    var n := |job.requirements|;
    CardView(
      job.requirements[..if n < 3 then n else 3],
      if n > 3 then Some(n - 3) else None,
      if Truthy(job.salary) then job.salary else None,
      "/careers/" + job.id,
      "/careers/" + job.id + "#apply-form")
  }

  /** The listed requirements followed by the ones the count stands for are
      all of them: nothing is lost and nothing reordered. */
  lemma CardAccountsForAll(job: Job)
    ensures var v := Card(job);
      v.shown + job.requirements[|v.shown|..] == job.requirements
      && (v.more.None? ==> v.shown == job.requirements)
      && (v.more.Some? ==> v.more.value == |job.requirements[|v.shown|..]|)
  {
    var v := Card(job);
    assert v.shown == job.requirements[..|v.shown|];
  }
}
