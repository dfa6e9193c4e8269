/** Ticket statuses (bug/status.go): an integer enumeration whose valid values are 1..9,
    with a lower-case name used on the command line and a human-readable action. */
module Status {
  import opened Wrappers
  import opened StrUtil

  /** bug.Status is a Go `int`; values outside 1..9 can be represented but are invalid. */
  type Status = int

  const Proposed: Status := 1
  const Vetted: Status := 2
  const InProgress: Status := 3
  const InReview: Status := 4
  const Reviewed: Status := 5
  const Accepted: Status := 6
  const Merged: Status := 7
  const Done: Status := 8
  const Rejected: Status := 9

  const First: Status := Proposed
  const Last: Status := Rejected

  predicate IsValid(s: Status) {
    First <= s <= Last
  }

  /** ActiveStatuses: the four statuses of a ticket being worked on, InProgress..Accepted. */
  function ActiveStatuses(): (r: seq<Status>)
    ensures |r| == 4 && forall i :: 0 <= i < 4 ==> r[i] == InProgress + i
    ensures forall s :: s in r <==> InProgress <= s <= Accepted
  {
    [InProgress, InReview, Reviewed, Accepted]
  }

  /** AllStatuses: every valid status once, in ascending order. */
  function AllStatuses(): (r: seq<Status>)
    ensures |r| == 9 && forall i :: 0 <= i < 9 ==> r[i] == i + 1
    ensures forall s :: s in r <==> IsValid(s)
  {
    [Proposed, Vetted, InProgress, InReview, Reviewed, Accepted, Merged, Done, Rejected]
  }

  /** Status.String: the lower-case name, or "unknown status" for an invalid value. */
  function StatusString(s: Status): (r: string)
    ensures !IsValid(s) <==> r == "unknown status"
    ensures NoUpper(r) && r != [] && !IsSpace(r[0]) && !IsSpace(r[|r| - 1])
  {
    match s
    case 1 => "proposed"
    case 2 => "vetted"
    case 3 => "inprogress"
    case 4 => "inreview"
    case 5 => "reviewed"
    case 6 => "accepted"
    case 7 => "merged"
    case 8 => "done"
    case 9 => "rejected"
    case _ => "unknown status"
  }

  /** Status.Action: the timeline text for setting the status. */
  function Action(s: Status): (r: string)
    ensures !IsValid(s) <==> r == "unknown status"
    ensures IsValid(s) ==> HasPrefix(r, "set ")
  {
    match s
    case 1 => "set PROPOSED"
    case 2 => "set VETTED"
    case 3 => "set IN PROGRESS"
    case 4 => "set IN REVIEW"
    case 5 => "set REVIEWED"
    case 6 => "set ACCEPTED"
    case 7 => "set MERGED"
    case 8 => "set DONE"
    case 9 => "set REJECTED"
    case _ => "unknown status"
  }

  /** The name lookup at the heart of StatusFromString. */
  function StatusByName(cleaned: string): (r: Option<Status>)
    ensures r.Some? ==> IsValid(r.value) && StatusString(r.value) == cleaned
  {
    if cleaned == "proposed" then Some(Proposed)
    else if cleaned == "vetted" then Some(Vetted)
    else if cleaned == "inprogress" then Some(InProgress)
    else if cleaned == "inreview" then Some(InReview)
    else if cleaned == "reviewed" then Some(Reviewed)
    else if cleaned == "accepted" then Some(Accepted)
    else if cleaned == "merged" then Some(Merged)
    else if cleaned == "done" then Some(Done)
    else if cleaned == "rejected" then Some(Rejected)
    else None
  }

  /** StatusFromString: trims white space, lower-cases, and looks the name up. */
  function StatusFromString(str: string): (r: Result<Status>)
    ensures r.Ok? ==> IsValid(r.value) && StatusString(r.value) == ToLower(TrimSpace(str))
    ensures r.Err? ==> r.msg == "unknown status: " + ToLower(TrimSpace(str))
  {
    var cleaned := ToLower(TrimSpace(str));
    match StatusByName(cleaned)
    case Some(st) => Ok(st)
    case None => Err("unknown status: " + cleaned)
  }

  /** Status.Validate: accepts exactly First..Last. */
  function Validate(s: Status): (r: Outcome)
    ensures r.Pass? <==> IsValid(s)
    ensures r.Fail? ==> r.msg == "invalid"
  {
    if s < First || s > Last then Fail("invalid") else Pass
  }

  /** Conversely, any input whose trimmed, lower-cased form is a status name is accepted,
      whatever its case and surrounding white space. */
  lemma StatusFromStringAccepts(str: string, s: Status)
    requires IsValid(s) && ToLower(TrimSpace(str)) == StatusString(s)
    ensures StatusFromString(str) == Ok(s)
  {
    NameLookup(s);
  }

  lemma NameLookup(s: Status)
    requires IsValid(s)
    ensures StatusByName(StatusString(s)) == Some(s)
  {
    match s
    case 1 =>
    case 2 =>
    case 3 =>
    case 4 =>
    case 5 =>
    case 6 =>
    case 7 =>
    case 8 =>
    case 9 =>
  }

  /** Every valid status survives a round trip through its name. */
  lemma StatusRoundTrip(s: Status)
    requires IsValid(s)
    ensures StatusFromString(StatusString(s)) == Ok(s)
  {
    var name := StatusString(s);
    TrimSpaceNoop(name);
    ToLowerNoop(name);
    StatusFromStringAccepts(name, s);
  }

  /** Names are distinct: the name determines the valid status. */
  lemma StatusStringInjective(a: Status, b: Status)
    requires IsValid(a) && IsValid(b) && StatusString(a) == StatusString(b)
    ensures a == b
  {
    StatusRoundTrip(a);
    StatusRoundTrip(b);
  }
}
