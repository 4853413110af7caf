/** The values that flow through the listening-history pipeline: parsed JSON,
    the uploaded records once their timestamp is validated, and the two kinds
    of play event the records are classified into (types/index.ts). */
module Types {

  datatype Option<T> = None | Some(value: T)

  datatype Result<T, E> = Success(value: T) | Failure(error: E)

  /** A parsed JSON value. Numbers are integers here: the fields the pipeline
      does arithmetic on (`ms_played`) are whole milliseconds. */
  datatype Json =
    | JNull
    | JBool(b: bool)
    | JNumber(n: int)
    | JString(str: string)
    | JArray(items: seq<Json>)
    | JObject(members: map<string, Json>)

  /** The outcome of `JSON.parse` on one uploaded file's text. */
  datatype Parse = Parsed(value: Json) | SyntaxError

  /** The `Date` built from a timestamp string. Its calendar reading (the
      year) depends on the observer's time zone and is supplied separately. */
  datatype Date = DateOf(text: string)

  /** An uploaded record after validation: its string `ts`, every other
      member of the parsed object (`fields`, without `ts` and `endTime`) and
      the `endTime` added from `ts`. */
  datatype ExtendedStream = ExtendedStream(ts: string, fields: map<string, Json>, endTime: Date)

  /** A play of a song. `platform` and `ms_played` are copied as they are
      found (None when the record has no such member). */
  datatype SongEvent = SongEvent(
    ts: string,
    platform: Option<Json>,
    msPlayed: Option<Json>,
    track: string,
    artist: string,
    album: string)

  /** A play of a podcast episode. */
  datatype EpisodeEvent = EpisodeEvent(
    ts: string,
    platform: Option<Json>,
    msPlayed: Option<Json>,
    episode: string,
    show: string)

  /** The value of member `key`, or None where JavaScript reads `undefined`. */
  function Member(fields: map<string, Json>, key: string): Option<Json>
  {
    if key in fields then Some(fields[key]) else None
  }

  /** `typeof fields[key] === "string"` */
  predicate HasString(fields: map<string, Json>, key: string)
  {
    key in fields && fields[key].JString?
  }
}
