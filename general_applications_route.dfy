/** `/api/general-applications`: open résumé submissions, checked for their
    required fields, copied into a snake_case row stamped "pending", and listed
    newest first. */
module GeneralApplicationsRoute {
  import opened Wrappers
  import opened Store
  import opened SupabaseData

  /** The JSON body of a résumé submission (camelCase); an absent field is None. */
  datatype ResumeBody = ResumeBody(
    firstName: Option<string>, lastName: Option<string>, email: Option<string>, phone: Option<string>,
    currentRole: Option<string>, experience: Option<string>, interestedRoles: Option<string>,
    availabilityDate: Option<string>, linkedinUrl: Option<string>, portfolioUrl: Option<string>,
    additionalInfo: Option<string>, cvUrl: Option<string>)

  /** A `general_applications` row (snake_case columns). */
  datatype ResumeRow = ResumeRow(
    first_name: Option<string>, last_name: Option<string>, email: Option<string>, phone: Option<string>,
    current_role: Option<string>, experience: Option<string>, interested_roles: Option<string>,
    availability_date: Option<string>, linkedin_url: Option<string>, portfolio_url: Option<string>,
    additional_info: Option<string>, cv_url: Option<string>, status: string)

  const Pending := "pending"

  datatype ResumeResponse =
    | Submitted(applicationId: nat)
    | ResumeList(applications: seq<Record<ResumeRow>>)
    | BadRequest(error: string)
    | ServerError(error: string)
  {
    function Status(): nat
    {
      match this
      case BadRequest(_) => 400
      case ServerError(_) => 500
      case _ => 200
    }
  }

  /** The fields a submission must carry, each present and non-empty. */
  function Required(b: ResumeBody): seq<Option<string>>
  {
    [b.firstName, b.lastName, b.email, b.phone, b.cvUrl]
  }

  predicate MissingRequired(b: ResumeBody)
  {
    exists k :: 0 <= k < |Required(b)| && !Truthy(Required(b)[k])
  }

  /** The row an accepted submission becomes: every field copied as given into
      its snake_case column, and the status set to "pending". */
  function Row(b: ResumeBody): (row: ResumeRow)
    ensures row.status == Pending
  {
    ResumeRow(b.firstName, b.lastName, b.email, b.phone, b.currentRole, b.experience, b.interestedRoles,
              b.availabilityDate, b.linkedinUrl, b.portfolioUrl, b.additionalInfo, b.cvUrl, Pending)
  }

  /** Reading a row back into camelCase fields. */
  function BodyOf(row: ResumeRow): ResumeBody
  {
    ResumeBody(row.first_name, row.last_name, row.email, row.phone, row.current_role, row.experience,
               row.interested_roles, row.availability_date, row.linkedin_url, row.portfolio_url,
               row.additional_info, row.cv_url)
  }

  /** The column mapping loses nothing: the body can be read back from its row,
      and rows of different bodies differ. */
  lemma RowKeepsEveryField(b: ResumeBody, c: ResumeBody)
    ensures BodyOf(Row(b)) == b
    ensures Row(b) == Row(c) ==> b == c
  {
    assert BodyOf(Row(c)) == c;
  }

  /** Any empty or absent required field is a missing one; the optional fields
      play no part in the check. */
  lemma RequiredFieldsGuard(b: ResumeBody, role: Option<string>, info: Option<string>)
    ensures MissingRequired(b) <==>
      !Truthy(b.firstName) || !Truthy(b.lastName) || !Truthy(b.email) || !Truthy(b.phone) || !Truthy(b.cvUrl)
    ensures MissingRequired(b.(currentRole := role, additionalInfo := info)) == MissingRequired(b)
  {
    if !Truthy(b.firstName) { assert !Truthy(Required(b)[0]); }
    if !Truthy(b.lastName) { assert !Truthy(Required(b)[1]); }
    if !Truthy(b.email) { assert !Truthy(Required(b)[2]); }
    if !Truthy(b.phone) { assert !Truthy(Required(b)[3]); }
    if !Truthy(b.cvUrl) { assert !Truthy(Required(b)[4]); }
    assert Required(b.(currentRole := role, additionalInfo := info)) == Required(b);
  }

  /** `POST`: None is a body that is not JSON. A missing required field answers
      400 before the table is touched; an accepted submission is inserted as
      `Row(body)` and its id returned; any failure answers 500. */
  method Post(applications: Table<ResumeRow>, body: Option<ResumeBody>, now: int, dbFails: bool)
    returns (resp: ResumeResponse)
    requires applications.Valid()
    modifies applications
    ensures applications.Valid()
    ensures resp.Status() == 400 <==> body.Some? && MissingRequired(body.value)
    ensures resp.BadRequest? ==> resp.error == "Missing required fields"
    ensures resp.Status() == 500 <==> body.None? || (!MissingRequired(body.value) && dbFails)
    ensures resp.ServerError? ==> resp.error == "Failed to submit resume"
    ensures !resp.Submitted? ==> applications.rows == old(applications.rows)
                                 && applications.nextId == old(applications.nextId)
    ensures resp.Submitted? ==> resp.applicationId == old(applications.nextId)
                                && applications.rows == old(applications.rows)
                                   + [Record(resp.applicationId, now, Row(body.value))]
    ensures !resp.ResumeList?
  {
    if body.None? {
      return ServerError("Failed to submit resume");
    }
    var b := body.value;
    RequiredFieldsGuard(b, b.currentRole, b.additionalInfo);
    if !Truthy(b.firstName) || !Truthy(b.lastName) || !Truthy(b.email) || !Truthy(b.phone) || !Truthy(b.cvUrl) {
      return BadRequest("Missing required fields");
    }
    var r := Create(applications, Row(b), now, dbFails);
    if r.Err? {
      return ServerError("Failed to submit resume");
    }
    resp := Submitted(r.value.id);
  }

  /** `GET`: every submission newest first, or 500 on a database error. */
  method Get(applications: Table<ResumeRow>, dbFails: bool) returns (resp: ResumeResponse)
    ensures resp.Status() == 500 <==> dbFails
    ensures resp.ServerError? ==> resp.error == "Failed to fetch applications"
    ensures !dbFails ==> resp.ResumeList? && NewestFirstOrder(resp.applications)
                         && multiset(resp.applications) == multiset(applications.rows)
  {
    var r := GetAll(applications.rows, dbFails);
    if r.Err? {
      return ServerError("Failed to fetch applications");
    }
    resp := ResumeList(r.value);
  }
}
