/** The checklist's values and their validators. */
module ChecklistDomain {
  import opened Prelude
  import opened ChecklistTable

  // The empty id string.  A UUID with value v is modelled as v + 1.
  const NO_ID: Id := 0

  const PENDING := "pending"
  const COMPLETE := "complete"
  const NOT_APPLICABLE := "not_applicable"

  datatype HousingCriterion = HousingCriterion(
    id: Id,
    family: Id,
    name: string,
    description: string,
    order: int,
    weight: Option<real>)

  datatype HousingAnswer = HousingAnswer(
    home: Id,
    criterion: Id,
    state: string,
    rating: Option<int>,
    notes: string)

  // The names reaching this check are already trimmed.
  predicate ValidCriterion(c: HousingCriterion) {
    && c.family != NO_ID
    && 0 < |c.name| <= 120
    && |c.description| <= 2000
    && 0 <= c.order
    && (c.weight.Some? ==> 0.0 < c.weight.value <= 1000.0)
  }

  function ValidateHousingCriterion(c: HousingCriterion): (r: Result<()>)
    ensures r.Ok? <==> ValidCriterion(c)
    ensures r.Ok? <==>
      && c.family != NO_ID && 1 <= |c.name| <= 120 && !(|c.description| > 2000) && c.order >= 0
      && (c.weight == None || (c.weight.value > 0.0 && !(c.weight.value > 1000.0)))
    ensures r.Err? ==> r.error == InvalidArgument
  {
    if c.family == NO_ID || c.name == "" || |c.name| > 120 || |c.description| > 2000 || c.order < 0 then
      Err(InvalidArgument)
    else if c.weight.Some? && (c.weight.value <= 0.0 || c.weight.value > 1000.0) then
      Err(InvalidArgument)
    else
      Ok(())
  }

  // What an accepted answer looks like: one of three shapes.
  predicate ValidAnswer(a: HousingAnswer) {
    && a.home != NO_ID && a.criterion != NO_ID && |a.notes| <= 5000
    && (a.rating.Some? ==> 1 <= a.rating.value <= 5)
    && (|| a.state == PENDING
        || (a.state == COMPLETE && a.rating.Some?)
        || (a.state == NOT_APPLICABLE && a.rating.None?))
  }

  function ValidateHousingAnswer(a: HousingAnswer): (r: Result<()>)
    ensures r.Ok? <==> ValidAnswer(a)
    ensures r.Ok? <==>
      && a.home != NO_ID && a.criterion != NO_ID && !(|a.notes| > 5000)
      && (|| (a.state == "pending" && (a.rating == None || a.rating.value in {1, 2, 3, 4, 5}))
          || (a.state == "complete" && a.rating != None && a.rating.value in {1, 2, 3, 4, 5})
          || (a.state == "not_applicable" && a.rating == None))
    ensures r.Err? ==> r.error == InvalidArgument
  {
    if a.home == NO_ID || a.criterion == NO_ID || |a.notes| > 5000 then
      Err(InvalidArgument)
    else if a.state != PENDING && a.state != COMPLETE && a.state != NOT_APPLICABLE then
      Err(InvalidArgument)
    else if a.rating.Some? && (a.rating.value < 1 || a.rating.value > 5) then
      Err(InvalidArgument)
    else if (a.state == COMPLETE && a.rating.None?) || (a.state == NOT_APPLICABLE && a.rating.Some?) then
      Err(InvalidArgument)
    else
      Ok(())
  }
}
