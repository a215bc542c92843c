/** The bodies of the request validators: each one either returns the field
    value (possibly normalised) or raises a ValueError, modelled as a Failure
    carrying the error text. */
module Validators {
  import opened Basics
  import opened Text
  import FusefyApi

  /** The methods `APIRequest.method` admits; GET when omitted. */
  datatype HttpMethod = GET | POST | PUT | DELETE

  const DefaultMethod: HttpMethod := GET

  function MethodName(m: HttpMethod): string {
    match m
    case GET => "GET"
    case POST => "POST"
    case PUT => "PUT"
    case DELETE => "DELETE"
  }

  /** The operations `ResourceOperation.operation` admits. */
  datatype OperationName = List | Get | Create | Update | Delete

  function OperationText(op: OperationName): string {
    match op
    case List => "list"
    case Get => "get"
    case Create => "create"
    case Update => "update"
    case Delete => "delete"
  }

  /** `APIRequest.validate_endpoint`: a leading `/` is added when missing. */
  function ValidateEndpoint(v: string): (r: string)
    ensures StartsWith(r, "/")
    ensures StartsWith(v, "/") ==> r == v
    ensures !StartsWith(v, "/") ==> r == "/" + v
  {
    if StartsWith(v, "/") then v else "/" + v
  }

  lemma ValidateEndpointIdempotent(v: string)
    ensures ValidateEndpoint(ValidateEndpoint(v)) == ValidateEndpoint(v)
  {
  }

  /** The validator and the adapter's first step agree on every endpoint. */
  lemma ValidateEndpointIsAdapterNormalisation(v: string)
    ensures ValidateEndpoint(v) == FusefyApi.NormalizeEndpoint(v)
  {
  }

  /** For a validated method, the adapter appends a resource id exactly for
      GET, PUT and DELETE and never for POST. */
  lemma ItemOperationMethods(m: HttpMethod, resourceId: Option<string>)
    ensures FusefyApi.SelectsItem(MethodName(m), resourceId) <==> Present(resourceId) && m != POST
  {
  }

  /** `ResourceOperation.validate_resource_id_required`. `operation` is None
      when it is missing from the values already validated. */
  function ValidateResourceId(operation: Option<OperationName>, v: Option<string>): (r: Result<Option<string>, string>)
    ensures r.Failure? <==> operation in {Some(Get), Some(Update), Some(Delete)} && !Present(v)
    ensures r.Success? ==> r.value == v
    ensures r.Failure? ==> r.error == "resource_id required for " + OperationText(operation.value) + " operation"
    ensures operation in {Some(List), Some(Create)} ==> r == Success(v)
  {
    if operation.Some? && operation.value in {Get, Update, Delete} && !Present(v) then
      Failure("resource_id required for " + OperationText(operation.value) + " operation")
    else Success(v)
  }

  /** A `data` value is falsy when it is None or an empty dict. */
  predicate DataPresent(v: Option<map<string, Json>>) {
    v.Some? && v.value != map[]
  }

  /** `ResourceOperation.validate_data_required`. */
  function ValidateData(operation: Option<OperationName>, v: Option<map<string, Json>>): (r: Result<Option<map<string, Json>>, string>)
    ensures r.Failure? <==> operation in {Some(Create), Some(Update)} && !DataPresent(v)
    ensures r.Success? ==> r.value == v
    ensures r.Failure? ==> r.error == "data required for " + OperationText(operation.value) + " operation"
    ensures operation in {Some(List), Some(Get), Some(Delete)} ==> r == Success(v)
  {
    if operation.Some? && operation.value in {Create, Update} && !DataPresent(v) then
      Failure("data required for " + OperationText(operation.value) + " operation")
    else Success(v)
  }

  const RequiredEmailFields: seq<string> := ["to", "subject", "body"]

  /** The first of `fields` that is not a key of `v`. */
  function FirstMissing(fields: seq<string>, v: map<string, Json>): (r: Option<nat>)
    ensures r.None? <==> forall i :: 0 <= i < |fields| ==> fields[i] in v
    ensures r.Some? ==> r.value < |fields| && fields[r.value] !in v
    ensures r.Some? ==> forall i :: 0 <= i < r.value ==> fields[i] in v
    decreases |fields|
  {
    if |fields| == 0 then None
    else if fields[0] !in v then Some(0)
    else match FirstMissing(fields[1..], v)
      case None => None
      case Some(k) => Some(k + 1)
  }

  function MissingFieldMessage(field: string): string {
    "email_data must contain '" + field + "'"
  }

  /** `EmailRequest.validate_email_data`: accepted iff `to`, `subject` and
      `body` are all present; the error names the first one missing. */
  function ValidateEmailData(v: map<string, Json>): (r: Result<map<string, Json>, string>)
    ensures r.Success? <==> "to" in v && "subject" in v && "body" in v
    ensures r.Success? ==> r.value == v
    ensures "to" !in v ==> r == Failure(MissingFieldMessage("to"))
    ensures "to" in v && "subject" !in v ==> r == Failure(MissingFieldMessage("subject"))
    ensures "to" in v && "subject" in v && "body" !in v ==> r == Failure(MissingFieldMessage("body"))
  {
    assert RequiredEmailFields[0] == "to" && RequiredEmailFields[1] == "subject" && RequiredEmailFields[2] == "body";
    match FirstMissing(RequiredEmailFields, v)
    case None => Success(v)
    case Some(k) => Failure(MissingFieldMessage(RequiredEmailFields[k]))
  }
}
