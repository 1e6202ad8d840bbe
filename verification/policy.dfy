/** The schema-checked configuration the validator receives: mode and scope
    are typed, the three synthetic sections are still raw mappings. */
module Policy {
  import opened Results
  import opened Json

  datatype TimestampConfig = TimestampConfig(mode: string)

  datatype ScopeConfig = ScopeConfig(fraction: real)

  datatype Config = Config(
    timestamp: TimestampConfig,
    scope: ScopeConfig,
    calendar: Option<Object>,
    workPatterns: Option<Object>,
    randomness: Option<Object>)

  /** A section of the document: an object, or absent/null. */
  function Section(doc: Object, key: string): Option<Option<Object>> {
    match Get(doc, key)
    case JNull => Some(None)
    case JObject(m) => Some(Some(m))
    case _ => None
  }

  /** The record `load_config` builds from a document that passed the schema:
      `str(mode)`, `float(fraction)`, and the sections taken as they are.
      Documents of a shape the schema refuses give `None`. */
  function FromDocument(doc: Object): (r: Option<Config>)
    ensures r.Some? ==> Get(doc, "timestamp").JObject? && Get(doc, "scope").JObject?
    ensures r.Some? ==> Get(Get(doc, "timestamp").fields, "mode") == JString(r.value.timestamp.mode)
  {
    var ts := Get(doc, "timestamp");
    var sc := Get(doc, "scope");
    if !ts.JObject? || !sc.JObject? then None
    else
      var mode := Get(ts.fields, "mode");
      var fraction := Get(sc.fields, "fraction");
      if !mode.JString? then None
      else if !fraction.JFloat? && !fraction.JInt? then None
      else
        match (Section(doc, "calendar"), Section(doc, "work_patterns"), Section(doc, "randomness"))
        case (Some(cal), Some(wp), Some(rnd)) =>
          var f := if fraction.JFloat? then fraction.r else fraction.i as real;
          Some(Config(TimestampConfig(mode.s), ScopeConfig(f), cal, wp, rnd))
        case _ => None
  }
}
