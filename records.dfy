/** The conference record as the scraper builds it (a Python dict with the
    keys name, details, parsed_date, location, status) and the persisted form
    that the de-duplicator completes with an id. */
module Records {

  datatype Option<T> = None | Some(value: T)

  /** A record as the extractor emits it: the trigger line as its name, the
      detail lines in source order, and three fields that hold a detail line
      or None. */
  datatype Record = Record(
    name: string,
    details: seq<string>,
    parsedDate: Option<string>,
    location: Option<string>,
    status: Option<string>)

  /** A record after de-duplication: the same record with its id slug. This
      is what a snapshot holds and what the differ keys on. */
  datatype Conference = Conference(id: string, record: Record)

  function Names(rs: seq<Record>): (ns: seq<string>)
    ensures |ns| == |rs|
    ensures forall i :: 0 <= i < |rs| ==> ns[i] == rs[i].name
  {
    if rs == [] then [] else [rs[0].name] + Names(rs[1..])
  }
}
