/** The line-format reader: a stream of `Stop ...` and `Bus ...` lines is
    split into two queues, and each line is cut into its name, coordinates,
    route or distances. Positions follow `std::string::find` and `size_t`
    arithmetic, including the wrap-around of `npos + k`. */
module InputReader {
  import opened Wrappers
  import opened Strings

  /** `std::string::npos`, the largest `size_t`. */
  const NPOS: nat := 0xFFFF_FFFF_FFFF_FFFF
  const SIZE_T_RANGE: nat := 0x1_0000_0000_0000_0000

  /** `s.find(...) + k` as `size_t`: a missing match is npos, and the sum
      wraps modulo 2^64. */
  function Offset(found: Option<nat>, k: nat): (r: nat)
    ensures found.Some? && found.value + k < SIZE_T_RANGE ==> r == found.value + k
    ensures found.None? && 1 <= k <= SIZE_T_RANGE ==> r == k - 1
  {
    ((if found.Some? then found.value else NPOS) + k) % SIZE_T_RANGE
  }

  /** A `find` result used as a count: npos means "to the end". */
  function Count(found: Option<nat>): nat {
    if found.Some? then found.value else NPOS
  }

  /** `s.substr(pos)`: out_of_range when `pos` is past the end. */
  function SubstrFrom(s: string, pos: nat): (r: Result<string>)
    ensures r.Success? <==> pos <= |s|
    ensures r.Success? ==> s == s[..pos] + r.value
    ensures r.Failure? ==> r.error == OutOfRange
  {
    if pos > |s| then Failure(OutOfRange) else Success(s[pos..])
  }

  /** `s.substr(0, n)`: at most `n` characters from the front. */
  function Prefix(s: string, n: nat): (r: string)
    ensures |r| == if n < |s| then n else |s|
    ensures s == r + s[|r|..]
  {
    if n < |s| then s[..n] else s
  }

  // ---------------------------------------------------------------------
  // CutSpaces

  predicate HasNonSpace(s: string) {
    exists i :: 0 <= i < |s| && s[i] != ' '
  }

  /** The text with its leading spaces removed (the first loop of CutSpaces). */
  function TrimmedStart(s: string): (r: string)
    ensures |r| <= |s|
  {
    if |s| > 0 && s[0] == ' ' then TrimmedStart(s[1..]) else s
  }

  /** The text with its trailing spaces removed (the second loop). */
  function TrimmedEnd(s: string): (r: string)
    ensures |r| <= |s|
  {
    if |s| > 0 && s[|s| - 1] == ' ' then TrimmedEnd(s[..|s| - 1]) else s
  }

  /** The text with its leading spaces and then its trailing spaces removed
      (empty for an all-space text, which CutSpaces itself does not accept). */
  function Trimmed(s: string): (r: string)
  {
    TrimmedEnd(TrimmedStart(s))
  }

  /** A trimmed text: not empty, no space at either end. */
  predicate IsTrimmed(t: string) {
    |t| > 0 && t[0] != ' ' && t[|t| - 1] != ' '
  }

  /** The front loop removes exactly the leading spaces. */
  lemma {:induction false} TrimmedStartShape(s: string)
    ensures s[|s| - |TrimmedStart(s)|..] == TrimmedStart(s)
    ensures forall i :: 0 <= i < |s| - |TrimmedStart(s)| ==> s[i] == ' '
    ensures |TrimmedStart(s)| > 0 ==> TrimmedStart(s)[0] != ' '
    decreases |s|
  {
    if |s| > 0 && s[0] == ' ' {
      var rest := s[1..];
      TrimmedStartShape(rest);
      assert s[|s| - |TrimmedStart(s)|..] == rest[|rest| - |TrimmedStart(rest)|..];
    }
  }

  /** The back loop removes exactly the trailing spaces. */
  lemma {:induction false} TrimmedEndShape(s: string)
    ensures s[..|TrimmedEnd(s)|] == TrimmedEnd(s)
    ensures forall i :: |TrimmedEnd(s)| <= i < |s| ==> s[i] == ' '
    ensures |TrimmedEnd(s)| > 0 ==> TrimmedEnd(s)[|TrimmedEnd(s)| - 1] != ' '
    decreases |s|
  {
    if |s| > 0 && s[|s| - 1] == ' ' {
      var front := s[..|s| - 1];
      TrimmedEndShape(front);
      assert s[..|TrimmedEnd(s)|] == front[..|TrimmedEnd(front)|];
    }
  }

  /** How many spaces trimming removes from the front. */
  function Lead(s: string): (a: nat)
  {
    |s| - |TrimmedStart(s)|
  }

  /** Trimming removes exactly the spaces at both ends: the trimmed text is a
      slice of the text with only spaces before and after it, and it is not
      empty when the text holds a non-space character. */
  lemma TrimmedShape(s: string)
    requires HasNonSpace(s)
    ensures IsTrimmed(Trimmed(s))
    ensures Lead(s) + |Trimmed(s)| <= |s| && s[Lead(s)..Lead(s) + |Trimmed(s)|] == Trimmed(s)
    ensures forall i :: 0 <= i < Lead(s) ==> s[i] == ' '
    ensures forall i :: Lead(s) + |Trimmed(s)| <= i < |s| ==> s[i] == ' '
  {
    TrimmedStartShape(s);
    TrimmedSlice(s);
    TrimmedTrailing(s);
    TrimmedNonEmpty(s);
  }

  lemma TrimmedSlice(s: string)
    ensures Lead(s) + |Trimmed(s)| <= |s| && s[Lead(s)..Lead(s) + |Trimmed(s)|] == Trimmed(s)
    ensures |Trimmed(s)| > 0 ==> IsTrimmed(Trimmed(s))
  {
    var t, u := TrimmedStart(s), Trimmed(s);
    TrimmedStartShape(s);
    TrimmedEndShape(t);
    assert s[Lead(s)..Lead(s) + |u|] == t[..|u|];
  }

  lemma TrimmedTrailing(s: string)
    ensures forall i :: Lead(s) + |Trimmed(s)| <= i < |s| ==> s[i] == ' '
  {
    var t := TrimmedStart(s);
    TrimmedStartShape(s);
    TrimmedEndShape(t);
    forall i | Lead(s) + |Trimmed(s)| <= i < |s| ensures s[i] == ' ' {
      assert s[i] == t[i - Lead(s)];
    }
  }

  lemma TrimmedNonEmpty(s: string)
    requires HasNonSpace(s)
    ensures |Trimmed(s)| > 0
  {
    var i :| 0 <= i < |s| && s[i] != ' ';
    TrimmedStartShape(s);
    TrimmedTrailing(s);
  }

  /** The reference reading of trimming: a trimmed text padded with spaces
      trims back to itself. */
  lemma TrimmedPadded(a: nat, t: string, b: nat)
    requires IsTrimmed(t)
    ensures HasNonSpace(Repeat(' ', a) + t + Repeat(' ', b))
    ensures Trimmed(Repeat(' ', a) + t + Repeat(' ', b)) == t
  {
    var u := t + Repeat(' ', b);
    assert Repeat(' ', a) + u == Repeat(' ', a) + t + Repeat(' ', b);
    assert (Repeat(' ', a) + u)[a] == t[0];
    TrimmedStartPadded(a, u);
    TrimmedEndPadded(t, b);
  }

  lemma {:induction false} TrimmedStartPadded(a: nat, u: string)
    requires |u| > 0 && u[0] != ' '
    ensures TrimmedStart(Repeat(' ', a) + u) == u
    decreases a
  {
    var s := Repeat(' ', a) + u;
    if a > 0 {
      assert s[1..] == Repeat(' ', a - 1) + u;
      TrimmedStartPadded(a - 1, u);
    } else {
      assert s == u;
    }
  }

  lemma {:induction false} TrimmedEndPadded(t: string, b: nat)
    requires |t| > 0 && t[|t| - 1] != ' '
    ensures TrimmedEnd(t + Repeat(' ', b)) == t
    decreases b
  {
    var s := t + Repeat(' ', b);
    if b > 0 {
      assert s[..|s| - 1] == t + Repeat(' ', b - 1);
      TrimmedEndPadded(t, b - 1);
    } else {
      assert s == t;
    }
  }

  /** `details::CutSpaces`: erases spaces from the front, then from the back,
      in place. The text must hold a non-space character, since an all-space
      text is emptied and then read before its beginning. */
  method CutSpaces(text: string) returns (r: string)
    requires HasNonSpace(text)
    ensures r == Trimmed(text)
  {
    r := text;
    while r[0] == ' '
      invariant HasNonSpace(r) && TrimmedStart(r) == TrimmedStart(text)
      decreases |r|
    {
      assert HasNonSpace(r[1..]) by {
        var i :| 0 <= i < |r| && r[i] != ' ';
        assert r[1..][i - 1] == r[i];
      }
      r := r[1..];
    }
    while r[|r| - 1] == ' '
      invariant HasNonSpace(r) && TrimmedEnd(r) == Trimmed(text)
      decreases |r|
    {
      assert HasNonSpace(r[..|r| - 1]) by {
        var i :| 0 <= i < |r| && r[i] != ' ';
        assert r[..|r| - 1][i] == r[i];
      }
      r := r[..|r| - 1];
    }
  }

  // ---------------------------------------------------------------------
  // Finding text

  /** A `std::string` never reaches npos characters (`max_size() < npos`). */
  predicate InMemory(s: string) {
    |s| < NPOS
  }

  /** The first occurrence: one at `i` with none before it is what `find` returns. */
  lemma FindFirst(s: string, sub: string, i: nat)
    requires OccursAt(s, sub, i)
    requires forall j :: 0 <= j < i ==> !OccursAt(s, sub, j)
    ensures Find(s, sub) == Some(i)
  {
  }

  /** A text lacking one of the characters of `sub` does not contain `sub`. */
  lemma FindNone(s: string, sub: string, c: char)
    requires c in sub && c !in s
    ensures Find(s, sub) == None
  {
    var m :| 0 <= m < |sub| && sub[m] == c;
    forall i | 0 <= i <= |s|
      ensures !OccursAt(s, sub, i)
    {
      if i + |sub| <= |s| {
        assert s[i..i + |sub|][m] == s[i + m];
      }
    }
  }

  /** No occurrence starts before `i` when the `m`-th character of `sub` is
      missing from the stretch of `s` where it would have to be. */
  lemma NoneBefore(s: string, sub: string, i: nat, m: nat)
    requires m < |sub| && i + m <= |s| && sub[m] !in s[m..i + m]
    ensures forall j :: 0 <= j < i ==> !OccursAt(s, sub, j)
  {
    forall j | 0 <= j < i
      ensures !OccursAt(s, sub, j)
    {
      assert s[m..i + m][j] == s[j + m];
      if j + |sub| <= |s| {
        assert s[j..j + |sub|][m] == s[j + m];
      }
    }
  }

  /** The text after the first ':'; with no ':' in it, `find(':') + 1` wraps to 0
      and the whole text is taken. */
  function AfterColon(request: string): (r: string)
    requires InMemory(request)
    ensures Find(request, ":").None? ==> r == request
    ensures Find(request, ":").Some? ==> r == request[Find(request, ":").value + 1..]
  {
    request[Offset(Find(request, ":"), 1)..]
  }

  // ---------------------------------------------------------------------
  // CutName

  /** The untrimmed name: after the first occurrence of `label`, up to the
      next ':' (or the end). A missing tag makes the start `npos + |tag|`,
      which wraps to `|tag| - 1`. */
  function NameField(request: string, tag: string): (r: Result<string>)
    ensures r.Success? ==> ':' !in r.value
    ensures r.Failure? ==> r.error == OutOfRange
  {
    var rest :- SubstrFrom(request, Offset(Find(request, tag), |tag|));
    var name := Prefix(rest, Count(Find(rest, ":")));
    PrefixFree(rest, ':');
    Success(name)
  }

  /** The text before the first occurrence of a character (all of it when
      there is none) does not hold that character. */
  lemma PrefixFree(s: string, c: char)
    ensures c !in Prefix(s, Count(Find(s, [c])))
  {
    var p := Prefix(s, Count(Find(s, [c])));
    forall j | 0 <= j < |p| ensures p[j] != c {
      assert !OccursAt(s, [c], j);
      assert s[j..j + 1] == [s[j]];
    }
  }

  /** `details::CutName`: the name between `label` and the next ':', trimmed.
      The name must hold a non-space character (see CutSpaces). */
  function CutName(request: string, tag: string): (r: Result<string>)
    requires NameField(request, tag).Success? ==> HasNonSpace(NameField(request, tag).value)
    ensures r.Success? <==> NameField(request, tag).Success?
    ensures r.Failure? ==> r.error == OutOfRange
    ensures r.Success? ==> IsTrimmed(r.value) && ':' !in r.value
  {
    var name :- NameField(request, tag);
    TrimmedShape(name);
    TrimmedIn(name, ':');
    Success(Trimmed(name))
  }

  /** Trimming only removes characters. */
  lemma TrimmedIn(s: string, c: char)
    requires HasNonSpace(s) && c !in s
    ensures c !in Trimmed(s)
  {
    TrimmedShape(s);
  }

  /** The reference reading of CutName: for a request laid out as text without
      the tag, the tag, a colon-free name and a ':', the result is the
      name trimmed. */
  lemma {:induction false} CutNameBetween(pre: string, tag: string, mid: string, post: string)
    requires InMemory(pre + tag + mid + ":" + post) && |tag| > 0
    requires forall i :: 0 <= i < |pre| ==> !OccursAt(pre + tag + mid + ":" + post, tag, i)
    requires ':' !in mid && HasNonSpace(mid)
    ensures NameField(pre + tag + mid + ":" + post, tag) == Success(mid)
    ensures CutName(pre + tag + mid + ":" + post, tag) == Success(Trimmed(mid))
  {
    var request := pre + tag + mid + ":" + post;
    assert request[|pre|..|pre| + |tag|] == tag;
    FindFirst(request, tag, |pre|);
    var rest := request[|pre| + |tag|..];
    assert rest == mid + ":" + post;
    assert OccursAt(rest, ":", |mid|) by { assert rest[|mid|..|mid| + 1] == ":"; }
    forall j | 0 <= j < |mid| ensures !OccursAt(rest, ":", j) {
      assert rest[j..j + 1][0] == mid[j];
    }
    FindFirst(rest, ":", |mid|);
    assert rest[..|mid|] == mid;
  }

  /** Without the tag, reading starts at index `|tag| - 1`, and past the
      end of a shorter request `substr` throws. */
  lemma CutNameNoLabel(request: string, tag: string)
    requires 0 < |tag| && InMemory(tag) && Find(request, tag).None?
    ensures |tag| - 1 > |request| ==> NameField(request, tag) == Failure(OutOfRange)
    ensures |tag| - 1 <= |request| ==>
      NameField(request, tag) == Success(Prefix(request[|tag| - 1..], Count(Find(request[|tag| - 1..], ":"))))
  {
  }

  // ---------------------------------------------------------------------
  // CutRoute

  /** The pieces of `s` between the occurrences of `del`, searched from the left. */
  function Split(s: string, del: string): (r: seq<string>)
    requires |del| > 0
    ensures |r| >= 1
    decreases |s|
  {
    match Find(s, del)
    case None => [s]
    case Some(i) => [s[..i]] + Split(s[i + |del|..], del)
  }

  /** The pieces put back together with the delimiter between them. */
  function Join(pieces: seq<string>, del: string): string
    requires |pieces| >= 1
  {
    if |pieces| == 1 then pieces[0] else pieces[0] + del + Join(pieces[1..], del)
  }

  /** Joining one more piece appends the delimiter and the piece. */
  lemma {:induction false} JoinSnoc(pieces: seq<string>, last: string, del: string)
    requires |pieces| >= 1
    ensures Join(pieces + [last], del) == Join(pieces, del) + del + last
    decreases |pieces|
  {
    var all := pieces + [last];
    assert all[1..] == pieces[1..] + [last];
    if |pieces| > 1 {
      JoinSnoc(pieces[1..], last, del);
    }
  }

  /** Splitting is undone by joining. */
  lemma {:induction false} SplitJoin(s: string, del: string)
    requires |del| > 0
    ensures Join(Split(s, del), del) == s
    decreases |s|
  {
    if Find(s, del).Some? {
      var i := Find(s, del).value;
      var rest := s[i + |del|..];
      var pieces := Split(s, del);
      assert pieces == [s[..i]] + Split(rest, del);
      SplitJoin(rest, del);
      assert pieces[1..] == Split(rest, del);
      assert Join(pieces, del) == s[..i] + del + rest;
      assert s == s[..i] + del + rest by { assert s[i..i + |del|] == del; }
    } else {
      assert Split(s, del) == [s];
    }
  }

  /** The text before the first occurrence holds no occurrence. */
  lemma FirstPieceFree(s: string, del: string, i: nat)
    requires |del| > 0 && Find(s, del) == Some(i)
    ensures !Contains(s[..i], del)
  {
    forall j | 0 <= j <= i
      ensures !OccursAt(s[..i], del, j)
    {
      if j + |del| <= i {
        assert !OccursAt(s, del, j);
        assert s[..i][j..j + |del|] == s[j..j + |del|];
      }
    }
  }

  /** No piece of a split holds the delimiter. */
  lemma {:induction false} SplitPiecesFree(s: string, del: string)
    requires |del| > 0
    ensures forall k :: 0 <= k < |Split(s, del)| ==> !Contains(Split(s, del)[k], del)
    decreases |s|
  {
    var pieces := Split(s, del);
    if Find(s, del).Some? {
      var i := Find(s, del).value;
      var rest := s[i + |del|..];
      SplitPiecesFree(rest, del);
      assert pieces == [s[..i]] + Split(rest, del);
      forall k | 0 <= k < |pieces|
        ensures !Contains(pieces[k], del)
      {
        if k == 0 {
          FirstPieceFree(s, del, i);
        } else {
          assert pieces[k] == Split(rest, del)[k - 1];
        }
      }
    } else {
      assert pieces == [s];
    }
  }

  predicate AllHaveNonSpace(pieces: seq<string>) {
    forall k :: 0 <= k < |pieces| ==> HasNonSpace(pieces[k])
  }

  /** Every piece trimmed. */
  function TrimAll(pieces: seq<string>): (r: seq<string>)
    ensures |r| == |pieces|
  {
    seq(|pieces|, k requires 0 <= k < |pieces| => Trimmed(pieces[k]))
  }

  /** What CutRoute and StopsDistance return for a text and a delimiter: the
      pieces between delimiters, trimmed. */
  function Pieces(s: string, del: string): (r: seq<string>)
    requires |del| > 0
    ensures |r| == |Split(s, del)|
  {
    TrimAll(Split(s, del))
  }

  /** Every piece is trimmed, holds no delimiter, and the untrimmed pieces
      joined by the delimiter give the text back. */
  lemma PiecesShape(s: string, del: string)
    requires |del| > 0 && AllHaveNonSpace(Split(s, del))
    ensures Join(Split(s, del), del) == s
    ensures forall k :: 0 <= k < |Pieces(s, del)| ==>
      && IsTrimmed(Pieces(s, del)[k])
      && !Contains(Pieces(s, del)[k], del)
      && Pieces(s, del)[k] == Trimmed(Split(s, del)[k])
  {
    SplitJoin(s, del);
    SplitPiecesFree(s, del);
    var r := Pieces(s, del);
    forall k | 0 <= k < |r|
      ensures IsTrimmed(r[k]) && !Contains(r[k], del) && r[k] == Trimmed(Split(s, del)[k])
    {
      var p := Split(s, del)[k];
      TrimmedShape(p);
      TrimmedContains(p, del);
    }
  }

  /** Trimming does not create an occurrence. */
  lemma TrimmedContains(s: string, sub: string)
    requires !Contains(s, sub)
    ensures !Contains(Trimmed(s), sub)
  {
    TrimmedSlice(s);
    var a, t := Lead(s), Trimmed(s);
    forall j: nat | j <= |t| ensures !OccursAt(t, sub, j) {
      NoOccurrenceInSlice(s, a, t, sub, j);
    }
  }

  /** Where the text has no occurrence, a slice of it has none either. */
  lemma NoOccurrenceInSlice(s: string, a: nat, t: string, sub: string, j: nat)
    requires a + |t| <= |s| && s[a..a + |t|] == t && !OccursAt(s, sub, a + j)
    ensures !OccursAt(t, sub, j)
  {
    if j + |sub| <= |t| {
      var x, y := t[j..j + |sub|], s[a + j..a + j + |sub|];
      forall m | 0 <= m < |sub| ensures x[m] == y[m] {
        assert t[j + m] == s[a..a + |t|][j + m];
      }
      assert x == y;
    }
  }

  /** One step of the cutting loop: the first piece, trimmed, comes first. */
  lemma PiecesFirst(s: string, del: string)
    requires |del| > 0 && Find(s, del).Some?
    ensures Pieces(s, del) == [Trimmed(s[..Find(s, del).value])] + Pieces(s[Find(s, del).value + |del|..], del)
  {
    var i := Find(s, del).value;
    var all, tail := Split(s, del), Split(s[i + |del|..], del);
    assert all == [s[..i]] + tail;
    var r, q := Pieces(s, del), Pieces(s[i + |del|..], del);
    forall k | 0 <= k < |q| ensures r[k + 1] == q[k] {
      assert tail[k] == all[k + 1];
    }
  }

  /** The cutting loops' step: the pieces already cut, then the first piece
      trimmed, then the pieces of the rest. */
  lemma CutStep(done: seq<string>, s: string, del: string)
    requires |del| > 0 && Find(s, del).Some?
    ensures done + Pieces(s, del) == (done + [Trimmed(s[..Find(s, del).value])]) + Pieces(s[Find(s, del).value + |del|..], del)
  {
    PiecesFirst(s, del);
  }

  /** The first piece, and every later one, holds a non-space character when
      all of them do. */
  lemma NonSpaceFirst(s: string, del: string)
    requires |del| > 0 && Find(s, del).Some? && AllHaveNonSpace(Split(s, del))
    ensures HasNonSpace(s[..Find(s, del).value])
    ensures AllHaveNonSpace(Split(s[Find(s, del).value + |del|..], del))
  {
    var i := Find(s, del).value;
    var all, tail := Split(s, del), Split(s[i + |del|..], del);
    assert all == [s[..i]] + tail;
    assert HasNonSpace(all[0]);
    forall k | 0 <= k < |tail| ensures HasNonSpace(tail[k]) {
      assert tail[k] == all[k + 1];
    }
  }

  /** The last step: a text without `del` is one piece. */
  lemma PiecesLast(s: string, del: string)
    requires |del| > 0 && Find(s, del).None?
    ensures AllHaveNonSpace(Split(s, del)) ==> HasNonSpace(s)
    ensures Pieces(s, del) == [Trimmed(s)]
  {
    assert Split(s, del) == [s];
    if AllHaveNonSpace(Split(s, del)) {
      assert HasNonSpace(Split(s, del)[0]);
    }
  }

  /** `details::CutRoute`: the text after the first ':' cut at every `del`,
      each piece trimmed. */
  method CutRoute(request: string, del: string) returns (routes: seq<string>)
    requires InMemory(request) && |del| > 0
    requires AllHaveNonSpace(Split(AfterColon(request), del))
    ensures routes == Pieces(AfterColon(request), del)
  {
    routes := [];
    var route := AfterColon(request);
    while Find(route, del).Some?
      invariant |del| > 0 && AllHaveNonSpace(Split(route, del))
      invariant routes + Pieces(route, del) == Pieces(AfterColon(request), del)
      decreases |route|
    {
      CutStep(routes, route, del);
      NonSpaceFirst(route, del);
      var i := Find(route, del).value;
      var stop := CutSpaces(route[..i]);
      routes := routes + [stop];
      route := route[i + |del|..];
    }
    PiecesLast(route, del);
    var last := CutSpaces(route);
    routes := routes + [last];
  }

  // ---------------------------------------------------------------------
  // Parsers

  /** A stop line's fields; the coordinates stay text, as `std::stod` is not
      part of this model. */
  datatype StopFields = StopFields(name: string, lat: string, lng: string)

  /** The latitude text: after the first ':', up to the next ','. */
  function LatField(request: string): (r: string)
    requires InMemory(request)
    ensures ',' !in r
  {
    var coords := AfterColon(request);
    var lat := Prefix(coords, Count(Find(coords, ",")));
    PrefixFree(coords, ',');
    lat
  }

  /** The longitude text: after the ',' that follows the first ':' (the whole
      coordinate text when there is no ',', as `npos + 1` wraps to 0). */
  function LngField(request: string): string
    requires InMemory(request)
  {
    var coords := AfterColon(request);
    coords[Offset(Find(coords, ","), 1)..]
  }

  /** `parsers::Stop` with `details::CutCoords`: the name after "Stop", the
      latitude and the longitude texts, each trimmed. */
  function Stop(request: string): (r: Result<StopFields>)
    requires InMemory(request)
    requires NameField(request, "Stop").Success? ==>
      HasNonSpace(NameField(request, "Stop").value) && HasNonSpace(LatField(request)) && HasNonSpace(LngField(request))
    ensures r.Success? <==> NameField(request, "Stop").Success?
    ensures r.Success? ==> IsTrimmed(r.value.name) && IsTrimmed(r.value.lat) && IsTrimmed(r.value.lng)
    ensures r.Success? ==> ':' !in r.value.name && ',' !in r.value.lat
  {
    var name :- CutName(request, "Stop");
    TrimmedShape(LatField(request));
    TrimmedShape(LngField(request));
    TrimmedIn(LatField(request), ',');
    Success(StopFields(name, Trimmed(LatField(request)), Trimmed(LngField(request))))
  }

  /** A bus line's fields. */
  datatype BusFields = BusFields(name: string, stops: seq<string>, circular: bool)

  /** A line holding " - " lists a route there and back; otherwise the stops
      are separated by " > " and the route is circular. */
  function BusDelimiter(request: string): (r: string)
    ensures |r| == 3
    ensures r == " - " <==> Contains(request, " - ")
  {
    if Contains(request, " - ") then " - " else " > "
  }

  /** `parsers::Bus`: the name after "Bus", the stops after ':' and whether
      the route is circular. */
  method Bus(request: string) returns (r: Result<BusFields>)
    requires InMemory(request)
    requires NameField(request, "Bus").Success? ==>
      HasNonSpace(NameField(request, "Bus").value) && AllHaveNonSpace(Split(AfterColon(request), BusDelimiter(request)))
    ensures r.Success? <==> NameField(request, "Bus").Success?
    ensures r.Failure? ==> r.error == OutOfRange
    ensures r.Success? ==> r.value.circular <==> !Contains(request, " - ")
    ensures r.Success? ==> r.value.name == CutName(request, "Bus").value
    ensures r.Success? ==> r.value.stops == Pieces(AfterColon(request), BusDelimiter(request))
  {
    var circular: bool;
    var del: string;
    if Find(request, " - ").Some? {
      del := " - ";
      circular := false;
    } else {
      del := " > ";
      circular := true;
    }
    var name := CutName(request, "Bus");
    if name.Failure? {
      return Failure(name.error);
    }
    var route := CutRoute(request, del);
    return Success(BusFields(name.value, route, circular));
  }

  /** The distances text of a stop line: what follows its second ','; None
      with fewer than two. */
  function DistancesField(request: string): (r: Option<string>)
    requires InMemory(request)
  {
    var temp := request[Offset(Find(request, ","), 1)..];
    if Find(temp, ",").None? then None else Some(temp[Offset(Find(temp, ","), 1)..])
  }

  /** The distances text is present exactly when the line has more than two
      comma-separated fields, and it is those fields from the third on. */
  lemma DistancesFieldSplit(request: string)
    requires InMemory(request)
    ensures DistancesField(request).None? <==> |Split(request, ",")| <= 2
    ensures DistancesField(request).Some? ==>
      |Split(request, ",")| > 2 && Join(Split(request, ",")[2..], ",") == DistancesField(request).value
  {
    if Find(request, ",").Some? {
      var temp := request[Find(request, ",").value + 1..];
      SplitAfterFirst(request, ",");
      if Find(temp, ",").Some? {
        var all := temp[Find(temp, ",").value + 1..];
        SplitAfterFirst(temp, ",");
        assert Split(request, ",")[2..] == Split(all, ",");
        SplitJoin(all, ",");
      }
    }
  }

  /** Past the first delimiter, the pieces are those of the rest. */
  lemma SplitAfterFirst(s: string, del: string)
    requires |del| > 0 && Find(s, del).Some?
    ensures Split(s, del)[1..] == Split(s[Find(s, del).value + |del|..], del)
  {
  }

  /** `parsers::StopsDistance`: the stop's name and the trimmed distance
      items after the coordinates. */
  method StopsDistance(request: string) returns (r: Result<(string, seq<string>)>)
    requires InMemory(request)
    requires NameField(request, "Stop").Success? ==>
      && HasNonSpace(NameField(request, "Stop").value)
      && (DistancesField(request).Some? ==> AllHaveNonSpace(Split(DistancesField(request).value, ",")))
    ensures r.Success? <==> NameField(request, "Stop").Success?
    ensures r.Failure? ==> r.error == OutOfRange
    ensures r.Success? ==> r.value.0 == CutName(request, "Stop").value
    ensures r.Success? && DistancesField(request).None? ==> r.value.1 == []
    ensures r.Success? && DistancesField(request).Some? ==> r.value.1 == Pieces(DistancesField(request).value, ",")
  {
    var name := CutName(request, "Stop");
    if name.Failure? {
      return Failure(name.error);
    }
    var distances: seq<string> := [];
    var temp := request[Offset(Find(request, ","), 1)..];
    if Find(temp, ",").None? {
      return Success((name.value, distances));
    }
    var allDistances := temp[Offset(Find(temp, ","), 1)..];
    distances := CutDistances(allDistances);
    return Success((name.value, distances));
  }

  /** The loop of StopsDistance: the distances text cut at every ',', each
      item trimmed. */
  method CutDistances(allDistances: string) returns (distances: seq<string>)
    requires AllHaveNonSpace(Split(allDistances, ","))
    ensures distances == Pieces(allDistances, ",")
  {
    distances := [];
    var rest, comma := allDistances, ",";
    while Find(rest, comma).Some?
      invariant comma == "," && AllHaveNonSpace(Split(rest, comma))
      invariant distances + Pieces(rest, comma) == Pieces(allDistances, comma)
      decreases |rest|
    {
      CutStep(distances, rest, comma);
      NonSpaceFirst(rest, comma);
      var i := Find(rest, comma).value;
      var distance := CutSpaces(rest[..i]);
      distances := distances + [distance];
      rest := rest[i + 1..];
    }
    PiecesLast(rest, comma);
    var last := CutSpaces(rest);
    distances := distances + [last];
  }

  /** `parsers::Distance`: from an item "<N>m to <name>", the name after the
      first "to", trimmed, and the number before the first 'm'. */
  function Distance(request: string): (r: Result<(string, int)>)
    requires InMemory(request)
    requires SubstrFrom(request, Offset(Find(request, "to"), 2)).Success? ==>
      HasNonSpace(SubstrFrom(request, Offset(Find(request, "to"), 2)).value)
    ensures r.Success? ==> IsTrimmed(r.value.0) && INT_MIN <= r.value.1 <= INT_MAX
  {
    var name :- SubstrFrom(request, Offset(Find(request, "to"), 2));
    var distance :- Stoi(Prefix(request, Count(Find(request, "m"))));
    TrimmedShape(name);
    Success((Trimmed(name), distance))
  }

  /** Reading back a distance item written as "<N>m to <name>". */
  lemma DistanceOfText(n: nat, name: string)
    requires n <= INT_MAX && IsTrimmed(name)
    requires InMemory(IntToString(n) + "m to " + name)
    ensures SubstrFrom(IntToString(n) + "m to " + name, Offset(Find(IntToString(n) + "m to " + name, "to"), 2)) == Success(" " + name)
    ensures (" " + name)[1] != ' '
    ensures Distance(IntToString(n) + "m to " + name) == Success((name, n))
  {
    var d := IntToString(n);
    var request := d + "m to " + name;
    DistanceTo(d, name);
    DistanceMetres(d, name);
    assert request[..|d|] == d;
    StoiOfIntToString(n);
    assert request[|d| + 4..] == " " + name;
    NameTrimmed(name);
  }

  /** The first "to" of a distance item is the one after the number. */
  lemma DistanceTo(d: string, name: string)
    requires AllDigits(d)
    ensures Find(d + "m to " + name, "to") == Some(|d| + 2)
  {
    var request := d + "m to " + name;
    assert 't' !in request[0..|d| + 2] by {
      assert request[0..|d| + 2] == d + "m ";
    }
    NoneBefore(request, "to", |d| + 2, 0);
    assert request[|d| + 2..|d| + 4] == "to";
    FindFirst(request, "to", |d| + 2);
  }

  /** The first 'm' of a distance item is the unit after the number. */
  lemma DistanceMetres(d: string, name: string)
    requires AllDigits(d)
    ensures Find(d + "m to " + name, "m") == Some(|d|)
  {
    var request := d + "m to " + name;
    assert 'm' !in request[0..|d|] by {
      assert request[0..|d|] == d;
    }
    NoneBefore(request, "m", |d|, 0);
    assert request[|d|..|d| + 1] == "m";
    FindFirst(request, "m", |d|);
  }

  // ---------------------------------------------------------------------
  // Processing

  /** The two queues a base-request stream is sorted into. */
  datatype RequestQueue = RequestQueue(stops: seq<string>, buses: seq<string>)

  /** `IsStop`: the label names a stop when it contains "Stop" anywhere. */
  predicate IsStop(text: string) {
    Contains(text, "Stop")
  }

  /** A line's label: the text before its first ':' (the whole line without one). */
  function LabelOf(request: string): string {
    Prefix(request, Count(Find(request, ":")))
  }

  /** The stop lines, in order. */
  function StopLines(lines: seq<string>): (r: seq<string>)
    ensures forall k :: 0 <= k < |r| ==> IsStop(LabelOf(r[k]))
  {
    if lines == [] then []
    else
      var front := StopLines(lines[..|lines| - 1]);
      var last := lines[|lines| - 1];
      if IsStop(LabelOf(last)) then front + [last] else front
  }

  /** The other lines, in order. */
  function BusLines(lines: seq<string>): (r: seq<string>)
    ensures forall k :: 0 <= k < |r| ==> !IsStop(LabelOf(r[k]))
  {
    if lines == [] then []
    else
      var front := BusLines(lines[..|lines| - 1]);
      var last := lines[|lines| - 1];
      if IsStop(LabelOf(last)) then front else front + [last]
  }

  /** Every line goes to exactly one queue. */
  lemma {:induction false} LinesPartitioned(lines: seq<string>)
    ensures multiset(StopLines(lines)) + multiset(BusLines(lines)) == multiset(lines)
  {
    if lines != [] {
      var front := lines[..|lines| - 1];
      LinesPartitioned(front);
      assert lines == front + [lines[|lines| - 1]];
    }
  }

  /** One more line joins exactly one of the queues. */
  lemma LinesSnoc(lines: seq<string>, i: nat)
    requires i < |lines|
    ensures IsStop(LabelOf(lines[i])) ==>
      StopLines(lines[..i + 1]) == StopLines(lines[..i]) + [lines[i]] && BusLines(lines[..i + 1]) == BusLines(lines[..i])
    ensures !IsStop(LabelOf(lines[i])) ==>
      StopLines(lines[..i + 1]) == StopLines(lines[..i]) && BusLines(lines[..i + 1]) == BusLines(lines[..i]) + [lines[i]]
  {
    assert lines[..i + 1][..i] == lines[..i];
  }

  /** The number of request lines announced by the first line: `std::stoi`
      of it, or of "" when the stream is empty. */
  function RequestCount(input: seq<string>): Result<int> {
    Stoi(if |input| > 0 then input[0] else "")
  }

  /** The request lines: as many as the count announces (none for a count
      below one), after the count's own line. */
  function RequestLines(input: seq<string>): (r: seq<string>)
    requires RequestCount(input).Success? && RequestCount(input).value < |input|
    ensures |r| == if RequestCount(input).value > 0 then RequestCount(input).value else 0
    ensures forall k :: 0 <= k < |r| ==> r[k] == input[1 + k]
  {
    var n := RequestCount(input).value;
    if n > 0 then input[1..1 + n] else []
  }

  /** `Processing`: reads the count, then that many lines, sending each to
      the stop queue when its label contains "Stop" and to the bus queue
      otherwise. */
  method Processing(input: seq<string>) returns (r: Result<RequestQueue>)
    requires RequestCount(input).Success? ==> RequestCount(input).value < |input|
    ensures r.Success? <==> RequestCount(input).Success?
    ensures r.Failure? ==> r == Failure(RequestCount(input).error)
    ensures r.Success? ==>
      r.value.stops == StopLines(RequestLines(input)) && r.value.buses == BusLines(RequestLines(input))
  {
    var count := RequestCount(input);
    if count.Failure? {
      return Failure(count.error);
    }
    var n := if count.value > 0 then count.value else 0;
    ghost var read := RequestLines(input);
    assert |read| == n;
    var result := RequestQueue([], []);
    var i := 0;
    while i < count.value
      invariant 0 <= i <= n
      invariant result.stops == StopLines(read[..i]) && result.buses == BusLines(read[..i])
    {
      var request := input[1 + i];
      assert request == read[i];
      LinesSnoc(read, i);
      if IsStop(LabelOf(request)) {
        result := result.(stops := result.stops + [request]);
        i := i + 1;
        continue;
      }
      result := result.(buses := result.buses + [request]);
      i := i + 1;
    }
    assert read[..i] == read;
    return Success(result);
  }

  // ---------------------------------------------------------------------
  // The reader's own examples

  /** Cutting at a delimiter that follows a piece free of one of its characters. */
  lemma SplitOn(a: string, del: string, b: string, m: nat)
    requires m < |del| && del[m] !in a && del[m] !in del[..m]
    ensures Split(a + del + b, del) == [a] + Split(b, del)
  {
    var s := a + del + b;
    var t := s[m..|a| + m];
    forall j | 0 <= j < |t| ensures t[j] != del[m] {
      if j + m < |a| {
        assert t[j] == a[j + m];
      } else {
        assert t[j] == del[..m][j + m - |a|];
      }
    }
    NoneBefore(s, del, |a|, m);
    assert s[|a|..|a| + |del|] == del;
    FindFirst(s, del, |a|);
    assert s[..|a|] == a && s[|a| + |del|..] == b;
  }

  /** The last piece: a text lacking a character of the delimiter. */
  lemma SplitEnd(s: string, del: string, c: char)
    requires |del| > 0 && c in del && c !in s
    ensures Split(s, del) == [s]
  {
    FindNone(s, del, c);
  }

  /** Joining pieces that lack a character of the delimiter (one that does
      not occur earlier in it) splits back into the same pieces. */
  lemma {:induction false} SplitJoined(pieces: seq<string>, del: string, m: nat)
    requires |pieces| >= 1 && m < |del| && del[m] !in del[..m]
    requires forall k :: 0 <= k < |pieces| ==> del[m] !in pieces[k]
    ensures Split(Join(pieces, del), del) == pieces
    decreases |pieces|
  {
    if |pieces| == 1 {
      assert del[m] in del;
      SplitEnd(pieces[0], del, del[m]);
    } else {
      var rest := pieces[1..];
      assert forall k :: 0 <= k < |rest| ==> rest[k] == pieces[k + 1];
      SplitJoined(rest, del, m);
      SplitOn(pieces[0], del, Join(rest, del), m);
      assert Join(pieces, del) == pieces[0] + del + Join(rest, del);
      assert pieces == [pieces[0]] + rest;
    }
  }

  /** Joining is unaffected by a prefix on the first piece. */
  lemma JoinPrefixed(p: string, pieces: seq<string>, del: string)
    requires |pieces| >= 1
    ensures Join([p + pieces[0]] + pieces[1..], del) == p + Join(pieces, del)
  {
    var q := [p + pieces[0]] + pieces[1..];
    if |pieces| > 1 {
      assert q[1..] == pieces[1..];
    }
  }

  /** A character missing from the pieces and the delimiter is missing from
      their join. */
  lemma {:induction false} JoinFree(pieces: seq<string>, del: string, c: char)
    requires |pieces| >= 1 && c !in del
    requires forall k :: 0 <= k < |pieces| ==> c !in pieces[k]
    ensures c !in Join(pieces, del)
    decreases |pieces|
  {
    if |pieces| > 1 {
      var rest := pieces[1..];
      assert forall k :: 0 <= k < |rest| ==> rest[k] == pieces[k + 1];
      JoinFree(rest, del, c);
    }
  }

  /** A name as the line format allows it: trimmed, and free of ':', ',',
      '-' and '>'. */
  predicate Plain(name: string) {
    IsTrimmed(name) && ':' !in name && ',' !in name && '-' !in name && '>' !in name
  }

  predicate AllPlain(names: seq<string>) {
    forall k :: 0 <= k < |names| ==> Plain(names[k])
  }

  /** The delimiter of a bus line. */
  function RouteDelimiter(circular: bool): string {
    if circular then " > " else " - "
  }

  /** A bus line in the input format: "Bus <name>: <stop> > <stop> ..." for
      a circular route, stops separated by " - " otherwise. */
  function BusText(name: string, stops: seq<string>, circular: bool): string
    requires |stops| >= 1
  {
    "Bus" + (" " + name) + ":" + (" " + Join(stops, RouteDelimiter(circular)))
  }

  /** A character missing from two texts is missing from their concatenation. */
  lemma FreeAppend(a: string, b: string, c: char)
    requires c !in a && c !in b
    ensures c !in a + b
  {
  }

  /** The text after the first ':' of a line whose head holds none. */
  lemma ColonAfter(head: string, tail: string)
    requires ':' !in head && InMemory(head + ":" + tail)
    ensures AfterColon(head + ":" + tail) == tail
    ensures LabelOf(head + ":" + tail) == head
  {
    var request := head + ":" + tail;
    assert request[0..|head|] == head;
    NoneBefore(request, ":", |head|, 0);
    assert request[|head|..|head| + 1] == ":";
    FindFirst(request, ":", |head|);
    assert request[|head| + 1..] == tail;
    assert request[..|head|] == head;
  }

  /** The first ':' of a bus line is the one after the name. */
  lemma BusTextColon(name: string, stops: seq<string>, circular: bool)
    requires ':' !in name && |stops| >= 1 && InMemory(BusText(name, stops, circular))
    ensures AfterColon(BusText(name, stops, circular)) == " " + Join(stops, RouteDelimiter(circular))
  {
    HeadFree("Bus", name);
    ColonAfter("Bus" + (" " + name), " " + Join(stops, RouteDelimiter(circular)));
  }

  /** The head of a line, a tag and a space-led name, holds no ':'. */
  lemma HeadFree(tag: string, name: string)
    requires ':' !in tag && ':' !in name
    ensures ':' !in tag + (" " + name)
  {
    assert ':' !in " ";
    FreeAppend(" ", name, ':');
    FreeAppend(tag, " " + name, ':');
  }

  /** A bus line's name field is the text between "Bus" and the ':'. */
  lemma BusTextName(name: string, stops: seq<string>, circular: bool)
    requires Plain(name) && |stops| >= 1 && InMemory(BusText(name, stops, circular))
    ensures NameField(BusText(name, stops, circular), "Bus") == Success(" " + name)
    ensures HasNonSpace(" " + name)
    ensures CutName(BusText(name, stops, circular), "Bus") == Success(name)
  {
    var rest := " " + Join(stops, RouteDelimiter(circular));
    assert "" + "Bus" == "Bus";
    assert (" " + name)[1] == name[0];
    assert ':' !in " ";
    FreeAppend(" ", name, ':');
    NameTrimmed(name);
    CutNameBetween("", "Bus", " " + name, rest);
  }

  /** A name read after one space trims back to the name. */
  lemma NameTrimmed(name: string)
    requires IsTrimmed(name)
    ensures HasNonSpace(" " + name) && Trimmed(" " + name) == name
  {
    assert " " + name == Repeat(' ', 1) + name + Repeat(' ', 0);
    TrimmedPadded(1, name, 0);
  }

  /** A bus line holds " - " exactly when its route is not circular (and has
      a second stop to put it before). */
  lemma BusTextDelimiter(name: string, stops: seq<string>, circular: bool)
    requires Plain(name) && AllPlain(stops) && (if circular then |stops| >= 1 else |stops| >= 2)
    ensures BusDelimiter(BusText(name, stops, circular)) == RouteDelimiter(circular)
  {
    var request := BusText(name, stops, circular);
    var del := RouteDelimiter(circular);
    var x := "Bus" + (" " + name) + ":";
    if circular {
      JoinFree(stops, del, '-');
      assert '-' !in " " && '-' !in "Bus" && '-' !in ":";
      FreeAppend(" ", name, '-');
      FreeAppend("Bus", " " + name, '-');
      FreeAppend("Bus" + (" " + name), ":", '-');
      FreeAppend(" ", Join(stops, del), '-');
      FreeAppend(x, " " + Join(stops, del), '-');
      FindNone(request, " - ", '-');
    } else {
      var tail := Join(stops[1..], del);
      assert Join(stops, del) == stops[0] + " - " + tail;
      var a := x + " " + stops[0];
      assert request == a + " - " + tail;
      assert OccursAt(request, " - ", |a|) by { assert request[|a|..|a| + 3] == " - "; }
    }
  }

  /** A route's stops, the first one after a space, cut back into the stops. */
  lemma RoutePieces(stops: seq<string>, circular: bool)
    requires AllPlain(stops) && |stops| >= 1
    ensures var pieces := [" " + stops[0]] + stops[1..];
      && Split(Join(pieces, RouteDelimiter(circular)), RouteDelimiter(circular)) == pieces
      && AllHaveNonSpace(pieces)
      && Pieces(Join(pieces, RouteDelimiter(circular)), RouteDelimiter(circular)) == stops
  {
    var del := RouteDelimiter(circular);
    var pieces := [" " + stops[0]] + stops[1..];
    forall k | 0 <= k < |pieces| ensures del[1] !in pieces[k] && HasNonSpace(pieces[k]) {
      if k == 0 {
        assert pieces[0][1] == stops[0][0];
      } else {
        assert pieces[k] == stops[k];
        assert pieces[k][0] == stops[k][0];
      }
    }
    SplitJoined(pieces, del, 1);
    var r := Pieces(Join(pieces, del), del);
    forall k | 0 <= k < |stops| ensures r[k] == stops[k] {
      if k == 0 {
        NameTrimmed(stops[0]);
      } else {
        assert pieces[k] == Repeat(' ', 0) + stops[k] + Repeat(' ', 0);
        TrimmedPadded(0, stops[k], 0);
      }
    }
  }

  /** The route of a bus line cuts back into its stops. */
  lemma BusTextStops(name: string, stops: seq<string>, circular: bool)
    requires Plain(name) && AllPlain(stops) && |stops| >= 1 && InMemory(BusText(name, stops, circular))
    ensures AllHaveNonSpace(Split(AfterColon(BusText(name, stops, circular)), RouteDelimiter(circular)))
    ensures Pieces(AfterColon(BusText(name, stops, circular)), RouteDelimiter(circular)) == stops
  {
    BusTextColon(name, stops, circular);
    JoinPrefixed(" ", stops, RouteDelimiter(circular));
    RoutePieces(stops, circular);
  }

  /** A bus line is parsed back into its name, its stops and its kind: the
      name after "Bus", the stops split at the delimiter and trimmed, and
      circular exactly when the stops are separated by " > ". */
  lemma BusTextParsed(name: string, stops: seq<string>, circular: bool)
    requires Plain(name) && AllPlain(stops) && (if circular then |stops| >= 1 else |stops| >= 2)
    requires InMemory(BusText(name, stops, circular))
    ensures var request := BusText(name, stops, circular);
      && NameField(request, "Bus").Success?
      && HasNonSpace(NameField(request, "Bus").value)
      && AllHaveNonSpace(Split(AfterColon(request), BusDelimiter(request)))
      && CutName(request, "Bus") == Success(name)
      && (!Contains(request, " - ") <==> circular)
      && Pieces(AfterColon(request), BusDelimiter(request)) == stops
  {
    BusTextName(name, stops, circular);
    BusTextDelimiter(name, stops, circular);
    BusTextStops(name, stops, circular);
  }

  /** Each item after a space, as the line format writes list items. */
  function Spaced(items: seq<string>): (r: seq<string>)
    ensures |r| == |items|
  {
    seq(|items|, k requires 0 <= k < |items| => " " + items[k])
  }

  /** Items written after a space each and joined by a delimiter cut back
      into the items. */
  lemma SpacedPieces(items: seq<string>, del: string, m: nat)
    requires AllPlain(items) && |items| >= 1
    requires m < |del| && del[m] !in del[..m] && del[m] != ' ' && del[m] in ":,->"
    ensures Split(Join(Spaced(items), del), del) == Spaced(items)
    ensures AllHaveNonSpace(Spaced(items))
    ensures Pieces(Join(Spaced(items), del), del) == items
  {
    var spaced := Spaced(items);
    forall k | 0 <= k < |items| ensures del[m] !in spaced[k] && HasNonSpace(spaced[k]) {
      assert spaced[k][1] == items[k][0];
      assert del[m] !in " ";
      FreeAppend(" ", items[k], del[m]);
    }
    SplitJoined(spaced, del, m);
    var r := Pieces(Join(spaced, del), del);
    forall k | 0 <= k < |items| ensures r[k] == items[k] {
      NameTrimmed(items[k]);
    }
  }

  /** A stop line in the input format: "Stop <name>: <lat>, <lng>" followed
      by ", <item>" for each distance item. */
  function StopText(name: string, lat: string, lng: string, items: seq<string>): string {
    "Stop" + (" " + name) + ":" + Join(Spaced([lat, lng] + items), ",")
  }

  /** The name of a stop line is read back. */
  lemma StopTextName(name: string, lat: string, lng: string, items: seq<string>)
    requires Plain(name) && InMemory(StopText(name, lat, lng, items))
    ensures NameField(StopText(name, lat, lng, items), "Stop") == Success(" " + name)
    ensures HasNonSpace(" " + name)
    ensures CutName(StopText(name, lat, lng, items), "Stop") == Success(name)
  {
    assert "" + "Stop" == "Stop";
    assert (" " + name)[1] == name[0];
    assert ':' !in " ";
    FreeAppend(" ", name, ':');
    NameTrimmed(name);
    CutNameBetween("", "Stop", " " + name, Join(Spaced([lat, lng] + items), ","));
  }

  /** The distance items of a stop line are read back. */
  lemma StopTextItems(name: string, lat: string, lng: string, items: seq<string>)
    requires Plain(name) && AllPlain([lat, lng] + items) && InMemory(StopText(name, lat, lng, items))
    ensures DistancesField(StopText(name, lat, lng, items)).Some? <==> items != []
    ensures items != [] ==> DistancesField(StopText(name, lat, lng, items)) == Some(Join(Spaced(items), ","))
  {
    var request := StopText(name, lat, lng, items);
    var fields := [lat, lng] + items;
    var spaced := Spaced(fields);
    var head := "Stop" + (" " + name) + ":";
    assert ',' !in " " && ',' !in "Stop" && ',' !in ":";
    FreeAppend(" ", name, ',');
    FreeAppend("Stop", " " + name, ',');
    FreeAppend("Stop" + (" " + name), ":", ',');
    JoinPrefixed(head, spaced, ",");
    var pieces := [head + spaced[0]] + spaced[1..];
    assert ',' !in head + spaced[0] by {
      assert ',' !in " ";
      FreeAppend(" ", lat, ',');
      FreeAppend(head, spaced[0], ',');
    }
    forall k | 0 <= k < |pieces| ensures ',' !in pieces[k] {
      if k > 0 {
        assert pieces[k] == " " + fields[k];
        FreeAppend(" ", fields[k], ',');
      }
    }
    SplitJoined(pieces, ",", 0);
    DistancesFieldSplit(request);
    if items != [] {
      assert pieces[2..] == Spaced(items);
    }
  }

  /** A stop line is parsed back into its name and its distance items. */
  lemma StopTextParsed(name: string, lat: string, lng: string, items: seq<string>)
    requires Plain(name) && AllPlain([lat, lng] + items) && InMemory(StopText(name, lat, lng, items))
    ensures var request := StopText(name, lat, lng, items);
      && NameField(request, "Stop").Success?
      && HasNonSpace(NameField(request, "Stop").value)
      && (DistancesField(request).Some? ==> AllHaveNonSpace(Split(DistancesField(request).value, ",")))
      && CutName(request, "Stop") == Success(name)
      && (DistancesField(request).None? <==> items == [])
      && (DistancesField(request).Some? ==> Pieces(DistancesField(request).value, ",") == items)
  {
    StopTextName(name, lat, lng, items);
    StopTextItems(name, lat, lng, items);
    if items != [] {
      var all := [lat, lng] + items;
      assert forall k :: 0 <= k < |items| ==> items[k] == all[k + 2];
      SpacedPieces(items, ",", 0);
    }
  }

  /** The coordinates of a stop line without distances follow its ':'. */
  lemma StopTextColon(name: string, lat: string, lng: string)
    requires Plain(name) && InMemory(StopText(name, lat, lng, []))
    ensures AfterColon(StopText(name, lat, lng, [])) == (" " + lat) + "," + (" " + lng)
  {
    var head := "Stop" + (" " + name);
    assert ':' !in " " && ':' !in "Stop";
    FreeAppend(" ", name, ':');
    FreeAppend("Stop", " " + name, ':');
    var coords := Join(Spaced([lat, lng]), ",");
    var spaced := Spaced([lat, lng]);
    assert spaced == [" " + lat, " " + lng];
    assert spaced[1..] == [" " + lng];
    assert Join(spaced[1..], ",") == " " + lng;
    assert coords == spaced[0] + "," + Join(spaced[1..], ",");
    assert [lat, lng] + [] == [lat, lng];
    assert StopText(name, lat, lng, []) == head + ":" + coords;
    ColonAfter(head, coords);
  }

  /** The two coordinate texts are cut at the ','. */
  lemma CoordsCut(lat: string, lng: string)
    requires Plain(lat) && InMemory((" " + lat) + "," + (" " + lng))
    ensures var coords := (" " + lat) + "," + (" " + lng);
      && Prefix(coords, Count(Find(coords, ","))) == " " + lat
      && coords[Offset(Find(coords, ","), 1)..] == " " + lng
  {
    var coords := (" " + lat) + "," + (" " + lng);
    assert ',' !in " ";
    FreeAppend(" ", lat, ',');
    NoneBefore(coords, ",", |lat| + 1, 0);
    assert coords[|lat| + 1..|lat| + 2] == ",";
    FindFirst(coords, ",", |lat| + 1);
    assert coords[..|lat| + 1] == " " + lat;
    assert coords[|lat| + 2..] == " " + lng;
  }

  /** A stop line without distances is parsed back into its name and its two
      coordinate texts. */
  lemma StopTextCoords(name: string, lat: string, lng: string)
    requires Plain(name) && Plain(lat) && Plain(lng) && InMemory(StopText(name, lat, lng, []))
    ensures var request := StopText(name, lat, lng, []);
      && NameField(request, "Stop").Success?
      && HasNonSpace(NameField(request, "Stop").value)
      && LatField(request) == " " + lat && LngField(request) == " " + lng
      && HasNonSpace(" " + lat) && HasNonSpace(" " + lng)
      && Stop(request) == Success(StopFields(name, lat, lng))
  {
    StopTextName(name, lat, lng, []);
    StopTextColon(name, lat, lng);
    CoordsCut(lat, lng);
    NameTrimmed(lat);
    NameTrimmed(lng);
  }

  /** A stop line goes to the stop queue. */
  lemma StopLineKind(name: string, lat: string, lng: string, items: seq<string>)
    requires Plain(name) && InMemory(StopText(name, lat, lng, items))
    ensures LabelOf(StopText(name, lat, lng, items)) == "Stop" + (" " + name)
    ensures IsStop(LabelOf(StopText(name, lat, lng, items)))
  {
    var head := "Stop" + (" " + name);
    assert ':' !in " " && ':' !in "Stop";
    FreeAppend(" ", name, ':');
    FreeAppend("Stop", " " + name, ':');
    ColonAfter(head, Join(Spaced([lat, lng] + items), ","));
    assert head[0..4] == "Stop";
  }

  /** A bus line goes to the bus queue unless its name contains "Stop":
      the label test looks for "Stop" anywhere before the ':'. */
  lemma BusLineKind(name: string, stops: seq<string>, circular: bool)
    requires ':' !in name && |stops| >= 1 && InMemory(BusText(name, stops, circular))
    ensures LabelOf(BusText(name, stops, circular)) == "Bus" + (" " + name)
    ensures IsStop(LabelOf(BusText(name, stops, circular))) <==> Contains(name, "Stop")
  {
    HeadFree("Bus", name);
    ColonAfter("Bus" + (" " + name), " " + Join(stops, RouteDelimiter(circular)));
    BusHeadStop(name);
    BusHeadNoStop(name);
  }

  /** "Stop" in the name is "Stop" in the label. */
  lemma BusHeadStop(name: string)
    ensures Contains(name, "Stop") ==> Contains("Bus" + (" " + name), "Stop")
  {
    var head := "Bus" + (" " + name);
    if Contains(name, "Stop") {
      var i := Find(name, "Stop").value;
      assert head[i + 4..i + 8] == name[i..i + 4];
      assert OccursAt(head, "Stop", i + 4);
    }
  }

  /** "Stop" in the label can only be "Stop" in the name. */
  lemma BusHeadNoStop(name: string)
    ensures Contains("Bus" + (" " + name), "Stop") ==> Contains(name, "Stop")
  {
    var head := "Bus" + (" " + name);
    if Contains(head, "Stop") {
      var i := Find(head, "Stop").value;
      assert head[0..4] == "Bus ";
      NoneBefore(head, "Stop", 4, 0);
      assert head[i..i + 4] == name[i - 4..i];
      assert OccursAt(name, "Stop", i - 4);
    }
  }
}
