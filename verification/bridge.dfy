/** `MQTTInfluxBridge._parse_mqtt_message` of mqttinfluxbridge.py: match the
    topic against `/(\w+)/(\w+)/(\w+)`, decode the JSON payload, pop its
    `timestamp`, and write one InfluxDB point tagged with the location.

    `\w` is taken as ASCII `[A-Za-z0-9_]`.  JSON decoding and the
    conversion of a timestamp to an ISO-8601 UTC string are parameters;
    the InfluxDB write is the returned list of points. */
module Bridge {
  import opened Results

  const TIMESTAMP: string := "timestamp"
  const LOCATION_TAG: string := "location"

  predicate IsWordChar(c: char)
  {
    ('a' <= c <= 'z') || ('A' <= c <= 'Z') || ('0' <= c <= '9') || c == '_'
  }

  predicate IsWord(s: string)
  {
    |s| > 0 && forall i :: 0 <= i < |s| ==> IsWordChar(s[i])
  }

  /** Length of the longest prefix of `s` made of word characters. */
  function WordRun(s: string): (n: nat)
    ensures n <= |s|
    ensures forall i :: 0 <= i < n ==> IsWordChar(s[i])
    ensures n < |s| ==> !IsWordChar(s[n])
    decreases |s|
  {
    if |s| == 0 || !IsWordChar(s[0]) then 0 else 1 + WordRun(s[1..])
  }

  /** One `/(\w+)` step of the pattern: a slash, then the greedy word run,
      and what follows it.  Since `/` is not a word character, backtracking
      into the run can never let the next slash match, so the greedy run is
      the only one that can. */
  function Segment(s: string): (r: Option<(string, string)>)
    ensures r.Some? ==> s == "/" + r.value.0 + r.value.1 && IsWord(r.value.0)
    ensures r.Some? ==> r.value.1 == [] || !IsWordChar(r.value.1[0])
  {
    if |s| == 0 || s[0] != '/' then None
    else
      var n := WordRun(s[1..]);
      if n == 0 then None
      else
        assert s == "/" + s[1..][..n] + s[1..][n..];
        Some((s[1..][..n], s[1..][n..]))
  }

  /** `re.match('/(\w+)/(\w+)/(\w+)', topic).groups()`; the match is
      anchored at the start only, so text after the third run is allowed. */
  function MatchTopic(topic: string): (r: Option<(string, string, string)>)
    ensures r.Some? ==> IsWord(r.value.0) && IsWord(r.value.1) && IsWord(r.value.2)
    ensures r.Some? ==> |topic| >= 6 && topic[0] == '/'
  {
    match Segment(topic)
    case None => None
    case Some((a, r1)) =>
      match Segment(r1)
      case None => None
      case Some((b, r2)) =>
        match Segment(r2)
        case None => None
        case Some((c, _)) => Some((a, b, c))
  }

  lemma {:induction false} WordRunOfWord(w: string, r: string)
    requires forall i :: 0 <= i < |w| ==> IsWordChar(w[i])
    ensures WordRun(w + r) == |w| + WordRun(r)
    decreases |w|
  {
    if |w| > 0 {
      assert (w + r)[1..] == w[1..] + r;
      WordRunOfWord(w[1..], r);
    } else {
      assert w + r == r;
    }
  }

  /** A slash, a word and any text: the step takes the word and continues
      it with the word characters that follow. */
  lemma SegmentOf(w: string, r: string)
    requires IsWord(w)
    ensures var n := WordRun(r);
      Segment("/" + w + r) == Some((w + r[..n], r[n..]))
  {
    var s := "/" + w + r;
    var t := w + r;
    assert s[0] == '/';
    assert s[1..] == t;
    WordRunOfWord(w, r);
    var n := WordRun(r);
    assert WordRun(t) == |w| + n > 0;
    assert t[..|w| + n] == w + r[..n];
    assert t[|w| + n..] == r[n..];
  }

  /** The match condition, as an independent decomposition: a topic that is
      a slash, a word, a slash, a word, a slash, a word and any text
      matches, and the groups are the three words with the third extended
      by the word characters that follow it. */
  lemma MatchComplete(a: string, b: string, c: string, rest: string)
    requires IsWord(a) && IsWord(b) && IsWord(c)
    ensures var n := WordRun(rest);
      MatchTopic("/" + a + "/" + b + "/" + c + rest) == Some((a, b, c + rest[..n]))
  {
    var r2 := "/" + c + rest;
    var r1 := "/" + b + r2;
    var topic := "/" + a + "/" + b + "/" + c + rest;
    assert topic == "/" + a + r1;
    SlashFirst(a, r1);
    SlashFirst(b, r2);
    SegmentOf(c, rest);
  }

  /** A word followed by a slash is taken whole. */
  lemma SlashFirst(w: string, r: string)
    requires IsWord(w) && |r| > 0 && r[0] == '/'
    ensures Segment("/" + w + r) == Some((w, r))
  {
    SegmentOf(w, r);
    assert WordRun(r) == 0;
    assert r[..0] == [] && r[0..] == r && w + [] == w;
  }

  /** And conversely: every match is such a decomposition of the topic,
      with a maximal third word. */
  lemma MatchSound(topic: string)
    requires MatchTopic(topic).Some?
    ensures var (a, b, c) := MatchTopic(topic).value;
      var rest := topic[3 + |a| + |b| + |c|..];
      && IsWord(a) && IsWord(b) && IsWord(c)
      && topic == "/" + a + "/" + b + "/" + c + rest
      && (rest == [] || !IsWordChar(rest[0]))
  {
    var s1 := Segment(topic).value;
    var s2 := Segment(s1.1).value;
    var s3 := Segment(s2.1).value;
    var a, b, c, r3 := s1.0, s2.0, s3.0, s3.1;
    assert MatchTopic(topic).value == (a, b, c);
    assert s2.1 == "/" + c + r3;
    assert s1.1 == "/" + b + s2.1;
    assert topic == "/" + a + s1.1;
    JoinFour(a, b, c, r3);
    assert topic == "/" + a + "/" + b + "/" + c + r3;
  }

  lemma JoinFour(a: string, b: string, c: string, r: string)
    ensures "/" + a + ("/" + b + ("/" + c + r)) == "/" + a + "/" + b + "/" + c + r
    ensures ("/" + a + "/" + b + "/" + c + r)[3 + |a| + |b| + |c|..] == r
  {
  }

  /** A subtopic of the topic the meter publishes on: the first level is
      discarded, the location is `common` and the measurement `energy`. */
  lemma MatchExample(topic: string)
    requires topic == "/dommu/common/energy/x"
    ensures MatchTopic(topic) == Some(("dommu", "common", "energy"))
  {
    var a, b, c, rest := "dommu", "common", "energy", "/x";
    assert IsWord(a) && IsWord(b) && IsWord(c);
    assert topic == "/" + a + "/" + b + "/" + c + rest;
    MatchComplete(a, b, c, rest);
    assert WordRun(rest) == 0;
    assert c + rest[..0] == c;
  }

  /** An empty level does not match. */
  lemma MismatchExample(topic: string)
    requires topic == "/dommu//energy"
    ensures MatchTopic(topic) == None
  {
    var a, rest := "dommu", "//energy";
    assert IsWord(a);
    assert topic == "/" + a + rest;
    SlashFirst(a, rest);
    assert rest[1..] == "/energy";
    assert WordRun(rest[1..]) == 0;
  }

  /** `dict.pop(key)`: the value and the map without the key, or KeyError. */
  function Pop<V>(m: map<string, V>, key: string): (r: Result<(V, map<string, V>)>)
    ensures r.Ok? <==> key in m
    ensures r.Err? ==> r.error == KeyError
    ensures r.Ok? ==> key !in r.value.1 && r.value.1[key := r.value.0] == m
  {
    if key in m then Ok((m[key], m - {key})) else Err(KeyError)
  }

  /** A point as handed to `write_points`. */
  datatype Point<V> = Point(measurement: string, tags: map<string, string>, time: string,
                            fields: map<string, V>)

  /** What handling one message does: nothing for a topic that does not
      match, an exception, or one write. */
  datatype Handled<V> = Ignored | Failed(error: Error) | Written(points: seq<Point<V>>)

  /** `_parse_mqtt_message`.  `decode` is `json.loads` on the payload text,
      `toIso` the conversion of a timestamp to an ISO-8601 UTC string; each
      yields None where it raises. */
  function ParseMessage<V>(topic: string, payload: string,
                           decode: string -> Option<map<string, V>>,
                           toIso: V -> Option<string>): (h: Handled<V>)
    ensures h.Ignored? <==> MatchTopic(topic).None?
    ensures h.Written? <==>
      && MatchTopic(topic).Some? && decode(payload).Some?
      && TIMESTAMP in decode(payload).value && toIso(decode(payload).value[TIMESTAMP]).Some?
    ensures h.Failed? && decode(payload).None? ==> h.error == DecodeError
    ensures h.Failed? && decode(payload).Some? && TIMESTAMP !in decode(payload).value ==> h.error == KeyError
    ensures h.Written? ==>
      var (_, location, measurement) := MatchTopic(topic).value;
      var record := decode(payload).value;
      && |h.points| == 1
      && h.points[0].measurement == measurement
      && h.points[0].tags == map[LOCATION_TAG := location]
      && h.points[0].time == toIso(record[TIMESTAMP]).value
      && h.points[0].fields.Keys == record.Keys - {TIMESTAMP}
      && forall k :: k in h.points[0].fields ==> h.points[0].fields[k] == record[k]
  {
    match MatchTopic(topic)
    case None => Ignored
    case Some((_, location, measurement)) =>
      match decode(payload)
      case None => Failed(DecodeError)
      case Some(record) =>
        match Pop(record, TIMESTAMP)
        case Err(e) => Failed(e)
        case Ok((stamp, fields)) =>
          match toIso(stamp)
          case None => Failed(TimestampError)
          case Some(time) =>
            Written([Point(measurement, map[LOCATION_TAG := location], time, fields)])
  }

  /** A topic that does not match is dropped before the payload is looked
      at: the outcome is the same whatever the payload and decoder. */
  lemma UnmatchedIgnoresPayload<V>(topic: string, p1: string, p2: string,
                                   d1: string -> Option<map<string, V>>, d2: string -> Option<map<string, V>>,
                                   f1: V -> Option<string>, f2: V -> Option<string>)
    requires MatchTopic(topic).None?
    ensures ParseMessage(topic, p1, d1, f1) == ParseMessage(topic, p2, d2, f2) == Ignored
  {
  }

  /** A written point never carries the timestamp as a field, and its time
      depends on the popped timestamp alone: two payloads with the same
      timestamp get the same time, whatever their other fields. */
  lemma PointTimeFromTimestampOnly<V>(topic: string, p1: string, p2: string,
                                      decode: string -> Option<map<string, V>>, toIso: V -> Option<string>)
    requires ParseMessage(topic, p1, decode, toIso).Written?
    requires ParseMessage(topic, p2, decode, toIso).Written?
    requires decode(p1).value[TIMESTAMP] == decode(p2).value[TIMESTAMP]
    ensures ParseMessage(topic, p1, decode, toIso).points[0].time ==
            ParseMessage(topic, p2, decode, toIso).points[0].time
    ensures TIMESTAMP !in ParseMessage(topic, p1, decode, toIso).points[0].fields
  {
  }
}
