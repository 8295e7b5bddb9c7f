/** `/api/job-applications`: applications for a listed job are checked for
    their required fields, copied into a snake_case row stamped "pending", and
    listed newest first. */
module JobApplicationsRoute {
  import opened Wrappers
  import opened Store
  import opened SupabaseData

  /** The JSON body of an application (camelCase); a field the body lacks is None. */
  datatype ApplicationBody = ApplicationBody(
    firstName: Option<string>, lastName: Option<string>, email: Option<string>, phone: Option<string>,
    coverLetter: Option<string>, jobId: Option<string>, jobTitle: Option<string>, cvUrl: Option<string>,
    experience: Option<string>, linkedinUrl: Option<string>, portfolioUrl: Option<string>)

  /** A `job_applications` row (snake_case columns). */
  datatype ApplicationRow = ApplicationRow(
    job_id: Option<string>, job_title: Option<string>, first_name: Option<string>, last_name: Option<string>,
    email: Option<string>, phone: Option<string>, cover_letter: Option<string>, experience: Option<string>,
    linkedin_url: Option<string>, portfolio_url: Option<string>, cv_url: Option<string>, status: string)

  const Pending := "pending"

  datatype ApplicationsResponse =
    | Submitted(applicationId: nat)
    | ApplicationList(applications: seq<Record<ApplicationRow>>)
    | BadRequest(error: string)
    | ServerError(error: string)
  {
    function Status(): nat
    {
      match this
      case BadRequest(_) => 400
      case ServerError(_) => 500
      case _ => 200
    }
  }

  /** The fields an application must carry, each present and non-empty. */
  function Required(b: ApplicationBody): seq<Option<string>>
  {
    [b.firstName, b.lastName, b.email, b.phone, b.coverLetter, b.jobId, b.cvUrl]
  }

  predicate MissingRequired(b: ApplicationBody)
  {
    exists k :: 0 <= k < |Required(b)| && !Truthy(Required(b)[k])
  }

  /** The row an accepted application becomes: every field copied as given into
      its snake_case column, and the status set to "pending". */
  function Row(b: ApplicationBody): (row: ApplicationRow)
    ensures row.status == Pending
  {
    ApplicationRow(b.jobId, b.jobTitle, b.firstName, b.lastName, b.email, b.phone, b.coverLetter,
                   b.experience, b.linkedinUrl, b.portfolioUrl, b.cvUrl, Pending)
  }

  /** Reading a row back into camelCase fields. */
  function BodyOf(row: ApplicationRow): ApplicationBody
  {
    ApplicationBody(row.first_name, row.last_name, row.email, row.phone, row.cover_letter, row.job_id,
                    row.job_title, row.cv_url, row.experience, row.linkedin_url, row.portfolio_url)
  }

  /** The column mapping loses nothing: the body can be read back from its row,
      and rows of different bodies differ. */
  lemma RowKeepsEveryField(b: ApplicationBody, c: ApplicationBody)
    ensures BodyOf(Row(b)) == b
    ensures Row(b) == Row(c) ==> b == c
  {
    assert BodyOf(Row(c)) == c;
  }

  /** Any empty or absent required field is a missing one; the job title is not
      among them. */
  lemma RequiredFieldsGuard(b: ApplicationBody, title: Option<string>)
    ensures MissingRequired(b) <==>
      !Truthy(b.firstName) || !Truthy(b.lastName) || !Truthy(b.email) || !Truthy(b.phone)
      || !Truthy(b.coverLetter) || !Truthy(b.jobId) || !Truthy(b.cvUrl)
    ensures MissingRequired(b.(jobTitle := title)) == MissingRequired(b)
  {
    if !Truthy(b.firstName) { assert !Truthy(Required(b)[0]); }
    if !Truthy(b.lastName) { assert !Truthy(Required(b)[1]); }
    if !Truthy(b.email) { assert !Truthy(Required(b)[2]); }
    if !Truthy(b.phone) { assert !Truthy(Required(b)[3]); }
    if !Truthy(b.coverLetter) { assert !Truthy(Required(b)[4]); }
    if !Truthy(b.jobId) { assert !Truthy(Required(b)[5]); }
    if !Truthy(b.cvUrl) { assert !Truthy(Required(b)[6]); }
    assert Required(b.(jobTitle := title)) == Required(b);
  }

  /** `POST`: None is a body that is not JSON. A missing required field answers
      400 before the table is touched; an accepted application is inserted as
      `Row(body)` and its id returned; any failure answers 500. */
  method Post(applications: Table<ApplicationRow>, body: Option<ApplicationBody>, now: int, dbFails: bool)
    returns (resp: ApplicationsResponse)
    requires applications.Valid()
    modifies applications
    ensures applications.Valid()
    ensures resp.Status() == 400 <==> body.Some? && MissingRequired(body.value)
    ensures resp.BadRequest? ==> resp.error == "Missing required fields"
    ensures resp.Status() == 500 <==> body.None? || (!MissingRequired(body.value) && dbFails)
    ensures resp.ServerError? ==> resp.error == "Failed to submit application"
    ensures !resp.Submitted? ==> applications.rows == old(applications.rows)
                                 && applications.nextId == old(applications.nextId)
    ensures resp.Submitted? ==> resp.applicationId == old(applications.nextId)
                                && applications.rows == old(applications.rows)
                                   + [Record(resp.applicationId, now, Row(body.value))]
    ensures !resp.ApplicationList?
  {
    if body.None? {
      return ServerError("Failed to submit application");
    }
    var b := body.value;
    if !Truthy(b.firstName) || !Truthy(b.lastName) || !Truthy(b.email) || !Truthy(b.phone)
       || !Truthy(b.coverLetter) || !Truthy(b.jobId) || !Truthy(b.cvUrl) {
      RequiredFieldsGuard(b, b.jobTitle);
      return BadRequest("Missing required fields");
    }
    RequiredFieldsGuard(b, b.jobTitle);
    var r := Create(applications, Row(b), now, dbFails);
    if r.Err? {
      return ServerError("Failed to submit application");
    }
    resp := Submitted(r.value.id);
  }

  /** `GET`: every application newest first, or 500 on a database error. */
  method Get(applications: Table<ApplicationRow>, dbFails: bool) returns (resp: ApplicationsResponse)
    ensures resp.Status() == 500 <==> dbFails
    ensures resp.ServerError? ==> resp.error == "Failed to fetch applications"
    ensures !dbFails ==> resp.ApplicationList? && NewestFirstOrder(resp.applications)
                         && multiset(resp.applications) == multiset(applications.rows)
  {
    var r := GetAll(applications.rows, dbFails);
    if r.Err? {
      return ServerError("Failed to fetch applications");
    }
    resp := ApplicationList(r.value);
  }
}
