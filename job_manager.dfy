/** The admin job editor: the form state, the requirements text it edits, and
    the request a submit sends. */
module JobManager {
  import opened Wrappers
  import opened Strings
  import opened Seqs
  import opened FileData

  /** The characters `String.prototype.trim` removes: the ECMAScript WhiteSpace
      and LineTerminator code points. */
  predicate IsJsWhitespace(c: char)
  {
    || c == '\t' || c == '\n' || c == '\U{000B}' || c == '\U{000C}' || c == '\r' || c == ' '
    || c == '\U{00A0}' || c == '\U{1680}' || ('\U{2000}' <= c <= '\U{200A}')
    || c == '\U{2028}' || c == '\U{2029}' || c == '\U{202F}' || c == '\U{205F}'
    || c == '\U{3000}' || c == '\U{FEFF}'
  }

  /** `line.trim()` is non-empty. */
  predicate NonBlank(line: string)
  {
    exists i :: 0 <= i < |line| && !IsJsWhitespace(line[i])
  }

  /** The submitted requirements: the lines of the text box, blank lines dropped,
      the others kept as they are. */
  function Requirements(text: string): (reqs: seq<string>)
  {
    Filter(NonBlank, Split(text, '\n'))
  }

  /** The kept lines are exactly the non-blank lines, untrimmed, in order, and
      there are never more of them than lines. */
  lemma RequirementsAreNonBlankLines(text: string)
    ensures var lines := Split(text, '\n');
      var reqs := Requirements(text);
      && |reqs| <= |lines|
      && Subsequence(reqs, lines)
      && (forall k :: 0 <= k < |reqs| ==> NonBlank(reqs[k]) && '\n' !in reqs[k])
      && (forall k :: 0 <= k < |lines| && NonBlank(lines[k]) ==> lines[k] in reqs)
  {
    FilterSubsequence(NonBlank, Split(text, '\n'));
  }

  /** Joining a list with newlines, as the editor does, and reading it back gives
      the list again, provided each entry is non-blank and has no newline. */
  lemma RequirementsRoundTrip(reqs: seq<string>)
    requires forall k :: 0 <= k < |reqs| ==> NonBlank(reqs[k]) && '\n' !in reqs[k]
    ensures Requirements(Join(reqs, '\n')) == reqs
  {
    if reqs == [] {
      assert Split("", '\n') == [""];
      assert !NonBlank("");
    } else {
      SplitJoin(reqs, '\n');
      FilterAll(NonBlank, reqs);
    }
  }

  datatype JobForm = JobForm(title: string, department: string, location: string, jobType: string,
                             salary: string, description: string, requirements: string)

  const DefaultForm := JobForm("", "", "", "Full-time", "", "", "")

  /** The form filled from a job; a missing or empty salary shows as "". */
  function FormFromJob(job: Job): (form: JobForm)
    ensures form.salary == if Truthy(job.salary) then job.salary.value else ""
  {
    JobForm(job.title, job.department, job.location, job.jobType,
            if Truthy(job.salary) then job.salary.value else "", job.description, Join(job.requirements, '\n'))
  }

  /** The JSON body a submit sends. */
  datatype JobPayload = JobPayload(title: string, department: string, location: string, jobType: string,
                                   salary: string, description: string, requirements: seq<string>)

  /** The form as sent: the text fields unchanged, the requirements text as a
      list of non-blank lines. */
  function Payload(form: JobForm): (p: JobPayload)
    ensures p.title == form.title && p.department == form.department && p.location == form.location
    ensures p.jobType == form.jobType && p.salary == form.salary && p.description == form.description
    ensures forall k :: 0 <= k < |p.requirements| ==> NonBlank(p.requirements[k]) && '\n' !in p.requirements[k]
  {
    RequirementsAreNonBlankLines(form.requirements);
    JobPayload(form.title, form.department, form.location, form.jobType, form.salary, form.description,
               Requirements(form.requirements))
  }

  datatype HttpMethod = HttpPost | HttpPut

  datatype Request = Request(httpMethod: HttpMethod, url: string, body: JobPayload)

  /** `PUT /api/admin/jobs/<id>` while editing a job, `POST /api/admin/jobs` otherwise. */
  function SubmitTarget(editingJob: Option<Job>): (t: (HttpMethod, string))
    ensures editingJob.Some? <==> t.0 == HttpPut
    ensures editingJob.Some? ==> t.1 == "/api/admin/jobs/" + editingJob.value.id
    ensures editingJob.None? ==> t.1 == "/api/admin/jobs"
  {
    if editingJob.Some? then (HttpPut, "/api/admin/jobs/" + editingJob.value.id) else (HttpPost, "/api/admin/jobs")
  }

  /** Editing a job and submitting it unchanged sends the job's own fields back
      (the salary as "" when it had none), to the job's own URL. */
  lemma EditSubmitRoundTrip(job: Job)
    requires forall k :: 0 <= k < |job.requirements| ==> NonBlank(job.requirements[k]) && '\n' !in job.requirements[k]
    ensures var p := Payload(FormFromJob(job));
      && p.requirements == job.requirements
      && p.title == job.title && p.department == job.department && p.location == job.location
      && p.jobType == job.jobType && p.description == job.description
      && p.salary == job.salary.GetOr("")
    ensures SubmitTarget(Some(job)) == (HttpPut, "/api/admin/jobs/" + job.id)
  {
    RequirementsRoundTrip(job.requirements);
  }

  class Editor {
    var form: JobForm
    var editingJob: Option<Job>
    var isEditing: bool
    /** Every request sent by a submit, in order. */
    var sent: seq<Request>

    constructor ()
      ensures form == DefaultForm && editingJob.None? && !isEditing && sent == []
    {
      form := DefaultForm;
      editingJob := None;
      isEditing := false;
      sent := [];
    }

    /** The "New Job" button opens the form without touching it. */
    method OpenNew()
      modifies this
      ensures isEditing && form == old(form) && editingJob == old(editingJob) && sent == old(sent)
    {
      isEditing := true;
    }

    method HandleEdit(job: Job)
      modifies this
      ensures editingJob == Some(job) && isEditing
      ensures form == FormFromJob(job)
      ensures sent == old(sent)
    {
      editingJob := Some(job);
      form := FormFromJob(job);
      isEditing := true;
    }

    method ResetForm()
      modifies this
      ensures form == DefaultForm && editingJob.None? && !isEditing
      ensures sent == old(sent)
    {
      form := DefaultForm;
      editingJob := None;
      isEditing := false;
    }

    /** A submit sends the form with its requirements split into lines; the
        form is reset only when the response is OK (`responseOk`). */
    method HandleSubmit(responseOk: bool)
      modifies this
      ensures var t := SubmitTarget(old(editingJob));
        sent == old(sent) + [Request(t.0, t.1, Payload(old(form)))]
      ensures responseOk ==> form == DefaultForm && editingJob.None? && !isEditing
      ensures !responseOk ==> form == old(form) && editingJob == old(editingJob) && isEditing == old(isEditing)
    {
      var target := SubmitTarget(editingJob);
      sent := sent + [Request(target.0, target.1, Payload(form))];
      if responseOk {
        ResetForm();
      }
    }
  }
}
