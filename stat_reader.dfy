/** The line-format answering side (transport-catalogue/stat_reader.cpp): a
    count, then that many "Bus <name>" or "Stop <name>" queries, each answered
    with one line about the catalogue. An exception thrown while answering
    ends the run after the lines already written. */
module StatReader {
  import opened Wrappers
  import opened Strings
  import opened Domain
  import opened Catalogue
  import opened InputReader

  // ---------------------------------------------------------------------
  // compute::Curv

  /** The road distance of one hop as `compute::Curv` reads it: the (a, b)
      entry when stored, otherwise `.at` of the (b, a) entry, which throws
      when that one is missing too. */
  function Hop(cat: TransportCatalogue, a: StopId, b: StopId): (r: Result<int>)
    reads cat
    ensures r.Success? <==> cat.HasDistance(a, b)
    ensures r.Failure? ==> r.error == OutOfRange
    ensures (a, b) in cat.distances ==> r == Success(cat.distances[(a, b)])
    ensures (a, b) !in cat.distances && (b, a) in cat.distances ==> r == Success(cat.distances[(b, a)])
  {
    if (a, b) !in cat.distances then
      if (b, a) in cat.distances then Success(cat.distances[(b, a)]) else Failure(OutOfRange)
    else Success(cat.distances[(a, b)])
  }

  /** The road length of a stop sequence: Hop summed over consecutive pairs,
      failing at the first pair without a distance. */
  function RoadLength(cat: TransportCatalogue, ids: seq<StopId>): (r: Result<int>)
    reads cat
  {
    if |ids| < 2 then Success(0)
    else
      var front :- RoadLength(cat, ids[..|ids| - 1]);
      var d :- Hop(cat, ids[|ids| - 2], ids[|ids| - 1]);
      Success(front + d)
  }

  /** The pair ending at position k of `ids` has a distance in some direction. */
  predicate Linked(cat: TransportCatalogue, ids: seq<StopId>, k: nat)
    reads cat
    requires 1 <= k < |ids|
  {
    cat.HasDistance(ids[k - 1], ids[k])
  }

  /** The length fails, with out_of_range, exactly when some consecutive pair
      has no distance in either direction; fewer than two stops have length 0. */
  lemma {:induction false} RoadLengthFails(cat: TransportCatalogue, ids: seq<StopId>)
    ensures RoadLength(cat, ids).Failure? <==> exists k :: 1 <= k < |ids| && !Linked(cat, ids, k)
    ensures RoadLength(cat, ids).Failure? ==> RoadLength(cat, ids).error == OutOfRange
    ensures |ids| < 2 ==> RoadLength(cat, ids) == Success(0)
  {
    if |ids| >= 2 {
      var front := ids[..|ids| - 1];
      RoadLengthFails(cat, front);
      forall k | 1 <= k < |front| ensures Linked(cat, front, k) == Linked(cat, ids, k) {
      }
      if !Linked(cat, ids, |ids| - 1) {
        assert RoadLength(cat, ids).Failure?;
      }
    }
  }

  /** Once a prefix fails, the whole sequence fails the same way. */
  lemma {:induction false} RoadLengthPrefixFails(cat: TransportCatalogue, ids: seq<StopId>, k: nat)
    requires k <= |ids| && RoadLength(cat, ids[..k]).Failure?
    ensures RoadLength(cat, ids) == RoadLength(cat, ids[..k])
    decreases |ids|
  {
    if k < |ids| {
      var front := ids[..|ids| - 1];
      assert front[..k] == ids[..k];
      RoadLengthPrefixFails(cat, front, k);
    } else {
      assert ids[..k] == ids;
    }
  }

  /** Every id of `ids` is the record its name currently stands for. */
  predicate Current(cat: TransportCatalogue, ids: seq<StopId>)
    reads cat
    requires cat.Valid()
  {
    forall k :: 0 <= k < |ids| ==> ids[k] < |cat.stops| && cat.stopIndex[cat.stops[ids[k]].name] == ids[k]
  }

  /** Summing by records and summing by names agree: for stops that are the
      current records of their names, Curv's length and the catalogue's
      RouteLength succeed together with the same value, and fail with
      out_of_range and invalid_argument respectively. */
  lemma {:induction false} RoadLengthIsRouteLength(cat: TransportCatalogue, ids: seq<StopId>)
    requires cat.Valid() && Current(cat, ids)
    ensures RoadLength(cat, ids).Success? <==> cat.RouteLength(ids).Success?
    ensures RoadLength(cat, ids).Success? ==> RoadLength(cat, ids).value == cat.RouteLength(ids).value
    ensures RoadLength(cat, ids).Failure? ==> cat.RouteLength(ids).error == InvalidArgument(NO_DISTANCE)
  {
    if |ids| >= 2 {
      var front := ids[..|ids| - 1];
      assert Current(cat, front) by {
        forall k | 0 <= k < |front| ensures front[k] == ids[k] {
        }
      }
      RoadLengthIsRouteLength(cat, front);
      var a, b := ids[|ids| - 2], ids[|ids| - 1];
      assert cat.stopIndex[cat.stops[a].name] == a && cat.stopIndex[cat.stops[b].name] == b;
      if RoadLength(cat, front).Failure? {
        cat.RouteLengthFails(front);
      }
    }
  }

  /** `compute::Curv`: looks the bus up with `.at`, then walks two iterators
      one stop apart and adds each hop's distance. The bus must have a stop:
      the second iterator starts one past the first. The `int` sum is taken
      as unbounded. */
  method Curv(cat: TransportCatalogue, name: string) returns (r: Result<int>)
    requires cat.Valid()
    requires name in cat.busIndex ==> |cat.buses[cat.busIndex[name]].stops| >= 1
    ensures name !in cat.busIndex ==> r == Failure(OutOfRange)
    ensures name in cat.busIndex ==> r == RoadLength(cat, cat.buses[cat.busIndex[name]].stops)
  {
    if name !in cat.busIndex {
      return Failure(OutOfRange);
    }
    var ids := cat.buses[cat.busIndex[name]].stops;
    var length := 0;
    var second := 1;
    while second != |ids|
      invariant 1 <= second <= |ids|
      invariant RoadLength(cat, ids[..second]) == Success(length)
      decreases |ids| - second
    {
      var first := second - 1;
      assert ids[..second + 1][..second] == ids[..second];
      if (ids[first], ids[second]) !in cat.distances {
        if (ids[second], ids[first]) !in cat.distances {
          RoadLengthPrefixFails(cat, ids, second + 1);
          return Failure(OutOfRange);
        }
        length := length + cat.distances[(ids[second], ids[first])];
        second := second + 1;
        continue;
      }
      length := length + cat.distances[(ids[first], ids[second])];
      second := second + 1;
    }
    assert ids[..second] == ids;
    return Success(length);
  }

  // ---------------------------------------------------------------------
  // compute::Data

  /** `compute::Data` without its geographic length: the number of stops the
      bus visits and the number of distinct stop records among them (the
      pointers sorted, then counted up to `std::unique`), each as an `int`.
      The bus is looked up with `.at`. */
  function Data(cat: TransportCatalogue, name: string): (r: Result<(Int32, Int32)>)
    reads cat
    requires cat.Valid()
    ensures r.Success? <==> name in cat.busIndex
    ensures r.Failure? ==> r.error == OutOfRange
    ensures r.Success? ==> r.value.0 == ToInt32(cat.ComputeStopsCount(name).value)
    ensures r.Success? ==> r.value.1 == ToInt32(cat.ComputeUniqueStopsCount(name).value)
    ensures r.Success? && cat.ComputeStopsCount(name).value <= INT_MAX ==>
      0 <= r.value.1 <= r.value.0 && (r.value.0 > 0 ==> r.value.1 >= 1)
  {
    if name !in cat.busIndex then Failure(OutOfRange)
    else
      var ids := cat.buses[cat.busIndex[name]].stops;
      DistinctBounds(ids);
      Success((ToInt32(|ids|), ToInt32(|Distinct(ids)|)))
  }

  // ---------------------------------------------------------------------
  // ProcessOutputBus

  /** One written answer. A bus with statistics is kept as its numbers: the
      route length and curvature are printed as floating point, which this
      model does not render. */
  datatype Answer =
    | Line(text: string)
    | BusStats(name: string, stops: Int32, uniqueStops: Int32, length: int)

  /** Every bus has a stop, as every bus the readers load does. */
  predicate RoutesNonEmpty(cat: TransportCatalogue)
    reads cat
    requires cat.Valid()
  {
    forall n :: n in cat.busIndex ==> |cat.buses[cat.busIndex[n]].stops| >= 1
  }

  /** The answer to a bus query: "not found" for an unknown name, otherwise
      the counts of Data and the length of Curv. */
  function BusReply(cat: TransportCatalogue, name: string): (r: Result<Answer>)
    reads cat
    requires cat.Valid() && RoutesNonEmpty(cat)
    ensures name !in cat.busIndex ==> r == Success(Line("Bus " + name + ": not found\n"))
    ensures name in cat.busIndex ==>
      var ids := cat.buses[cat.busIndex[name]].stops;
      && (r.Success? <==> forall k :: 1 <= k < |ids| ==> Linked(cat, ids, k))
      && (r.Failure? ==> r.error == OutOfRange)
      && (r.Success? ==>
            && r.value.BusStats? && r.value.name == name
            && (r.value.stops, r.value.uniqueStops) == Data(cat, name).value
            && RoadLength(cat, ids) == Success(r.value.length))
  {
    if name !in cat.busIndex then Success(Line("Bus " + name + ": not found\n"))
    else
      var ids := cat.buses[cat.busIndex[name]].stops;
      RoadLengthFails(cat, ids);
      var counts := Data(cat, name).value;
      var length :- RoadLength(cat, ids);
      Success(BusStats(name, counts.0, counts.1, length))
  }

  /** `ProcessOutputBus`: the "not found" line, or Data followed by Curv. */
  method ProcessOutputBus(cat: TransportCatalogue, name: string) returns (r: Result<Answer>)
    requires cat.Valid() && RoutesNonEmpty(cat)
    ensures r == BusReply(cat, name)
  {
    if name !in cat.busIndex {
      return Success(Line("Bus " + name + ": not found\n"));
    }
    var counts := Data(cat, name);
    var length := Curv(cat, name);
    if length.Failure? {
      return Failure(length.error);
    }
    return Success(BusStats(name, counts.value.0, counts.value.1, length.value));
  }

  // ---------------------------------------------------------------------
  // ProcessOutputStop

  /** Bus names as the stop answer writes them: each after one space. */
  function Words(names: seq<string>): string {
    if names == [] then "" else Words(names[..|names| - 1]) + " " + names[|names| - 1]
  }

  /** The line for a stop, given the catalogue's bus set for it (or its
      absence): "not found", "no buses", or "buses" and the names. */
  function StopReply(name: string, found: Result<seq<string>>): string {
    "Stop " + name + ": " + (if found.Failure? then "not found" else if found.value == [] then "no buses"
      else "buses" + Words(found.value)) + "\n"
  }

  /** The names written after "buses" are the names joined by single spaces,
      after one more space. */
  lemma {:induction false} WordsJoin(names: seq<string>)
    requires |names| >= 1
    ensures Words(names) == " " + Join(names, " ")
    decreases |names|
  {
    var sp := " ";
    var front := names[..|names| - 1];
    var last := names[|names| - 1];
    assert names == front + [last];
    assert Words(names) == Words(front) + sp + last;
    if |front| >= 1 {
      WordsJoin(front);
      JoinSnoc(front, last, sp);
      assert Words(names) == sp + (Join(front, sp) + sp + last);
    } else {
      assert Join(names, sp) == last;
    }
  }

  predicate SpaceFree(names: seq<string>) {
    forall k :: 0 <= k < |names| ==> ' ' !in names[k]
  }

  /** The three stop answers, and the bus list read back: when no bus name
      holds a space, cutting the text after "buses " at the spaces gives the
      stop's buses in their sorted order. */
  lemma StopReplyCases(cat: TransportCatalogue, name: string)
    requires cat.Valid()
    ensures name !in cat.stopIndex ==> StopReply(name, cat.GetBusesToStop(name)) == "Stop " + name + ": not found\n"
    ensures name in cat.stopIndex && cat.stopBuses[name] == [] ==>
      StopReply(name, cat.GetBusesToStop(name)) == "Stop " + name + ": no buses\n"
    ensures name in cat.stopIndex && cat.stopBuses[name] != [] ==>
      StopReply(name, cat.GetBusesToStop(name)) == "Stop " + name + ": buses " + Join(cat.stopBuses[name], " ") + "\n"
    ensures name in cat.stopIndex && cat.stopBuses[name] != [] && SpaceFree(cat.stopBuses[name]) ==>
      Split(Join(cat.stopBuses[name], " "), " ") == cat.stopBuses[name]
  {
    if name in cat.stopIndex && cat.stopBuses[name] != [] {
      var buses := cat.stopBuses[name];
      WordsJoin(buses);
      assert "buses" + Words(buses) == "buses " + Join(buses, " ");
      if SpaceFree(buses) {
        SplitJoined(buses, " ", 0);
      }
    }
  }

  /** `ProcessOutputStop`: the head, then "not found", "no buses", or
      "buses" followed by each bus of the stop's set after a space. */
  method ProcessOutputStop(cat: TransportCatalogue, name: string) returns (line: string)
    requires cat.Valid()
    ensures line == StopReply(name, cat.GetBusesToStop(name))
  {
    line := "Stop " + name + ": ";
    if name !in cat.stopBuses {
      return line + "not found" + "\n";
    }
    if cat.stopBuses[name] == [] {
      return line + "no buses" + "\n";
    }
    var buses := cat.stopBuses[name];
    var list := "";
    for k := 0 to |buses|
      invariant list == Words(buses[..k])
    {
      assert buses[..k + 1][..k] == buses[..k];
      list := list + " " + buses[k];
    }
    assert buses[..|buses|] == buses;
    line := line + ("buses" + list) + "\n";
  }

  // ---------------------------------------------------------------------
  // Output

  /** The label test: a query whose text before its first ':' contains
      "Bus" anywhere is a bus query; every other one is a stop query. */
  predicate IsBusQuery(request: string) {
    Contains(LabelOf(request), "Bus")
  }

  function QueryTag(request: string): string {
    if IsBusQuery(request) then "Bus" else "Stop"
  }

  /** The name field of a query holds a non-space character, as CutSpaces
      needs. */
  predicate Readable(request: string) {
    NameField(request, QueryTag(request)).Success? ==> HasNonSpace(NameField(request, QueryTag(request)).value)
  }

  /** The answer to one query line: the name is cut after the tag the label
      test picked, then answered as a bus or as a stop. */
  function Reply(cat: TransportCatalogue, request: string): (r: Result<Answer>)
    reads cat
    requires cat.Valid() && RoutesNonEmpty(cat) && Readable(request)
  {
    var name :- CutName(request, QueryTag(request));
    if IsBusQuery(request) then BusReply(cat, name)
    else Success(Line(StopReply(name, cat.GetBusesToStop(name))))
  }

  /** The queries all readable, as Reply needs. */
  predicate AllReadable(requests: seq<string>) {
    forall k :: 0 <= k < |requests| ==> Readable(requests[k])
  }

  /** The answer, or the exception, of each query in turn. */
  function Results(cat: TransportCatalogue, requests: seq<string>): (r: seq<Result<Answer>>)
    reads cat
    requires cat.Valid() && RoutesNonEmpty(cat) && AllReadable(requests)
    ensures |r| == |requests| && forall k :: 0 <= k < |requests| ==> r[k] == Reply(cat, requests[k])
  {
    seq(|requests|, k requires 0 <= k < |requests| && cat.Valid() && RoutesNonEmpty(cat) && Readable(requests[k]) reads cat =>
      Reply(cat, requests[k]))
  }

  /** What a run writes and how it ends, given each query's result: the
      answers in turn, until the first exception, which ends the run. */
  function Collect(results: seq<Result<Answer>>): (r: (seq<Answer>, Outcome))
  {
    if results == [] then ([], Pass)
    else
      var front := Collect(results[..|results| - 1]);
      if front.1.Fail? then front
      else
        match results[|results| - 1]
        case Success(a) => (front.0 + [a], Pass)
        case Failure(e) => (front.0, Fail(e))
  }

  /** A run that ends normally writes every answer, in order; a run that
      throws writes the answers before the first exception, and nothing of
      what follows it. */
  lemma {:induction false} CollectPointwise(results: seq<Result<Answer>>)
    ensures var r := Collect(results);
      && |r.0| <= |results|
      && (forall k :: 0 <= k < |r.0| ==> results[k] == Success(r.0[k]))
      && (r.1.Pass? ==> |r.0| == |results|)
      && (r.1.Fail? ==> |r.0| < |results| && results[|r.0|] == Failure(r.1.error))
  {
    if results != [] {
      var front := results[..|results| - 1];
      CollectPointwise(front);
      var f := Collect(front);
      forall k | 0 <= k < |front| ensures front[k] == results[k] {
      }
    }
  }

  /** The answers written for a run of queries and how the run ended. */
  function Replies(cat: TransportCatalogue, requests: seq<string>): (r: (seq<Answer>, Outcome))
    reads cat
    requires cat.Valid() && RoutesNonEmpty(cat) && AllReadable(requests)
  {
    Collect(Results(cat, requests))
  }

  /** Every query of a run that ends normally is answered, in order; a run
      that throws stops at the first query that throws. */
  lemma RepliesPointwise(cat: TransportCatalogue, requests: seq<string>)
    requires cat.Valid() && RoutesNonEmpty(cat) && AllReadable(requests)
    ensures var r := Replies(cat, requests);
      && |r.0| <= |requests|
      && (forall k :: 0 <= k < |r.0| ==> Reply(cat, requests[k]) == Success(r.0[k]))
      && (r.1.Pass? ==> |r.0| == |requests|)
      && (r.1.Fail? ==> |r.0| < |requests| && Reply(cat, requests[|r.0|]) == Failure(r.1.error))
  {
    CollectPointwise(Results(cat, requests));
  }

  /** One more result after a run that ended normally. */
  lemma CollectSnoc(results: seq<Result<Answer>>, i: nat)
    requires i < |results| && Collect(results[..i]).1.Pass?
    ensures results[i].Success? ==> Collect(results[..i + 1]) == (Collect(results[..i]).0 + [results[i].value], Pass)
    ensures results[i].Failure? ==> Collect(results[..i + 1]) == (Collect(results[..i]).0, Fail(results[i].error))
  {
    assert results[..i + 1][..i] == results[..i];
  }

  /** After an exception, later results are not looked at. */
  lemma {:induction false} CollectFailFinal(results: seq<Result<Answer>>, i: nat)
    requires i <= |results| && Collect(results[..i]).1.Fail?
    ensures Collect(results) == Collect(results[..i])
    decreases |results|
  {
    if i < |results| {
      var front := results[..|results| - 1];
      assert front[..i] == results[..i];
      CollectFailFinal(front, i);
    } else {
      assert results[..i] == results;
    }
  }

  /** A run whose every result is an answer writes all of them and ends
      normally. */
  lemma {:induction false} CollectSuccesses(results: seq<Result<Answer>>, answers: seq<Answer>)
    requires |answers| == |results| && forall k :: 0 <= k < |results| ==> results[k] == Success(answers[k])
    ensures Collect(results) == (answers, Pass)
    decreases |results|
  {
    if results != [] {
      var m := |results| - 1;
      CollectSuccesses(results[..m], answers[..m]);
      assert answers == answers[..m] + [answers[m]];
    }
  }

  /** One more answer extends a run of answers that match the results. */
  lemma SuccessesSnoc(results: seq<Result<Answer>>, answers: seq<Answer>, a: Answer)
    requires |answers| < |results| && results[|answers|] == Success(a)
    requires forall k :: 0 <= k < |answers| ==> results[k] == Success(answers[k])
    ensures forall k :: 0 <= k < |answers| + 1 ==> results[k] == Success((answers + [a])[k])
  {
  }

  /** A run whose first exception comes after the given answers writes those
      answers and ends with that exception. */
  lemma CollectFirstFailure(results: seq<Result<Answer>>, answers: seq<Answer>)
    requires |answers| < |results| && results[|answers|].Failure?
    requires forall k :: 0 <= k < |answers| ==> results[k] == Success(answers[k])
    ensures Collect(results) == (answers, Fail(results[|answers|].error))
  {
    var i := |answers|;
    CollectSuccesses(results[..i], answers);
    CollectSnoc(results, i);
    CollectFailFinal(results, i + 1);
  }

  /** The body of Output's loop for one query: the label test, the name cut
      after the chosen tag, and the bus or stop answer. */
  method AnswerQuery(cat: TransportCatalogue, request: string) returns (answer: Result<Answer>)
    requires cat.Valid() && RoutesNonEmpty(cat) && Readable(request)
    ensures answer == Reply(cat, request)
  {
    if IsBusQuery(request) {
      var name := CutName(request, "Bus");
      if name.Failure? {
        return Failure(name.error);
      }
      answer := ProcessOutputBus(cat, name.value);
      return;
    }
    var name := CutName(request, "Stop");
    if name.Failure? {
      return Failure(name.error);
    }
    var line := ProcessOutputStop(cat, name.value);
    return Success(Line(line));
  }

  /** Output's loop: the queries answered in turn, stopping at the first
      one that throws. */
  method AnswerQueries(cat: TransportCatalogue, requests: seq<string>) returns (answers: seq<Answer>, outcome: Outcome)
    requires cat.Valid() && RoutesNonEmpty(cat) && AllReadable(requests)
    ensures (answers, outcome) == Replies(cat, requests)
  {
    ghost var results := Results(cat, requests);
    answers, outcome := [], Pass;
    var i := 0;
    while i < |requests|
      invariant i <= |requests|
      invariant |answers| == i && forall k :: 0 <= k < i ==> results[k] == Success(answers[k])
    {
      var answer := AnswerQuery(cat, requests[i]);
      if answer.Failure? {
        CollectFirstFailure(results, answers);
        return answers, Fail(answer.error);
      }
      SuccessesSnoc(results, answers, answer.value);
      answers := answers + [answer.value];
      i := i + 1;
    }
    CollectSuccesses(results, answers);
  }

  /** `Output`: reads the count with `std::stoi`, then that many queries,
      answering each as the label test directs. */
  method Output(input: seq<string>, cat: TransportCatalogue) returns (answers: seq<Answer>, outcome: Outcome)
    requires cat.Valid() && RoutesNonEmpty(cat)
    requires RequestCount(input).Success? ==> RequestCount(input).value < |input|
    requires forall k :: 1 <= k < |input| ==> Readable(input[k])
    ensures RequestCount(input).Failure? ==> answers == [] && outcome == Fail(RequestCount(input).error)
    ensures RequestCount(input).Success? ==> AllReadable(RequestLines(input))
    ensures RequestCount(input).Success? ==> (answers, outcome) == Replies(cat, RequestLines(input))
  {
    var count := RequestCount(input);
    if count.Failure? {
      return [], Fail(count.error);
    }
    var requests := RequestLines(input);
    assert AllReadable(requests) by {
      forall k | 0 <= k < |requests| ensures Readable(requests[k]) {
        assert requests[k] == input[1 + k];
      }
    }
    answers, outcome := AnswerQueries(cat, requests);
  }

  // ---------------------------------------------------------------------
  // Query lines

  /** A query "<tag> <name>" names `name`: the text after the tag, with no
      ':' to stop at, trimmed. */
  lemma QueryName(tag: string, name: string)
    requires |tag| > 0 && ':' !in tag && ':' !in name && IsTrimmed(name)
    requires InMemory(tag + (" " + name))
    ensures LabelOf(tag + (" " + name)) == tag + (" " + name)
    ensures NameField(tag + (" " + name), tag) == Success(" " + name)
    ensures CutName(tag + (" " + name), tag) == Success(name)
  {
    var request := tag + (" " + name);
    HeadFree(tag, name);
    ContainsChar(request, ':');
    assert request[0..|tag|] == tag;
    FindFirst(request, tag, 0);
    var rest := request[|tag|..];
    assert rest == " " + name;
    assert ':' !in " ";
    FreeAppend(" ", name, ':');
    ContainsChar(rest, ':');
    NameTrimmed(name);
  }

  /** "Bus <name>" is answered as a bus query about `name`. */
  lemma BusQueryAnswered(cat: TransportCatalogue, name: string)
    requires cat.Valid() && RoutesNonEmpty(cat)
    requires ':' !in name && IsTrimmed(name) && InMemory("Bus" + (" " + name))
    ensures IsBusQuery("Bus" + (" " + name)) && Readable("Bus" + (" " + name))
    ensures Reply(cat, "Bus" + (" " + name)) == BusReply(cat, name)
  {
    var request := "Bus" + (" " + name);
    assert ':' !in "Bus";
    QueryName("Bus", name);
    assert OccursAt(request, "Bus", 0) by { assert request[0..3] == "Bus"; }
    NameTrimmed(name);
  }

  /** "Stop <name>" is answered as a stop query about `name` when the name
      does not contain "Bus". */
  lemma StopQueryAnswered(cat: TransportCatalogue, name: string)
    requires cat.Valid() && RoutesNonEmpty(cat)
    requires ':' !in name && IsTrimmed(name) && !Contains(name, "Bus") && InMemory("Stop" + (" " + name))
    ensures !IsBusQuery("Stop" + (" " + name)) && Readable("Stop" + (" " + name))
    ensures Reply(cat, "Stop" + (" " + name)) == Success(Line(StopReply(name, cat.GetBusesToStop(name))))
  {
    assert ':' !in "Stop";
    QueryName("Stop", name);
    StopHeadNoBus(name);
    NameTrimmed(name);
  }

  /** "Bus" in the label can only be "Bus" in the name. */
  lemma StopHeadNoBus(name: string)
    ensures Contains("Stop" + (" " + name), "Bus") ==> Contains(name, "Bus")
  {
    var head := "Stop" + (" " + name);
    if Contains(head, "Bus") {
      var i := Find(head, "Bus").value;
      assert head[0..5] == "Stop ";
      NoneBefore(head, "Bus", 5, 0);
      assert head[i..i + 3] == name[i - 5..i - 2];
      assert OccursAt(name, "Bus", i - 5);
    }
  }

  /** The label test looks for "Bus" anywhere: a stop query whose name
      contains "Bus" is taken for a bus query. */
  lemma StopQueryMisread(name: string)
    requires ':' !in name && Contains(name, "Bus") && InMemory("Stop" + (" " + name))
    ensures IsBusQuery("Stop" + (" " + name))
  {
    var head := "Stop" + (" " + name);
    HeadFree("Stop", name);
    ContainsChar(head, ':');
    var i := Find(name, "Bus").value;
    assert head[i + 5..i + 8] == name[i..i + 3];
    assert OccursAt(head, "Bus", i + 5);
  }
}
