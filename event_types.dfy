/** The three event statuses shared by the status schema and the status and join buttons. */
module EventTypes {
  import opened Wrappers

  datatype Status = Upcoming | Started | Finished

  /** The wire spelling of each status. */
  function Name(s: Status): string {
    match s
    case Upcoming => "upcoming"
    case Started => "started"
    case Finished => "finished"
  }

  /** The enum check `z.enum(["upcoming", "started", "finished"])`. */
  function ParseStatus(name: string): (r: Option<Status>)
    ensures r.Some? ==> Name(r.value) == name
  {
    if name == "upcoming" then Some(Upcoming)
    else if name == "started" then Some(Started)
    else if name == "finished" then Some(Finished)
    else None
  }

  /** Parsing inverts naming, and only the three names parse. */
  lemma ParseStatusRoundTrip(s: Status, name: string)
    ensures ParseStatus(Name(s)) == Some(s)
    ensures ParseStatus(name).Some? <==> name in {"upcoming", "started", "finished"}
  {
  }
}
