/**
 The route set of a dialog on its way out to the application and back.

 The shim prints the routes into a fixed buffer, one per line. Rust splits the text
 into lines, keeps it with the dialog snapshot, and later joins the routes again for a
 restored dialog; the shim splits that text with a cursor.

 A route stands for its printed text. Printing a URI is assumed to succeed whenever it
 leaves room in the buffer.
 */
module RouteSet {
  import opened Lists
  import opened Text

  const CAPACITY := 4096

  function Join(routes: seq<string>): string {
    if routes == [] then []
    else if |routes| == 1 then routes[0]
    else routes[0] + (['\n'] + Join(routes[1..]))
  }

  lemma {:induction false} JoinSnoc(routes: seq<string>, route: string)
    requires routes != []
    ensures Join(routes + [route]) == Join(routes) + (['\n'] + route)
  {
    if |routes| == 1 {
      assert (routes + [route])[1..] == [route];
    } else {
      JoinSnoc(routes[1..], route);
      assert (routes + [route])[1..] == routes[1..] + [route];
      ConcatAssociative(routes[0], ['\n'] + Join(routes[1..]), ['\n'] + route);
      ConcatAssociative(['\n'], Join(routes[1..]), ['\n'] + route);
    }
  }

  predicate NonEmpty(routes: seq<string>) {
    forall i :: 0 <= i < |routes| ==> routes[i] != ""
  }

  // ---- Out: the shim's buffer -----------------------------------------------------------

  /** The exported text: all routes or nothing. */
  function Exported(routes: seq<string>): string {
    if NonEmpty(routes) && |Join(routes)| < CAPACITY then Join(routes) else ""
  }

  /** A longer list of routes joins to a longer text. */
  lemma {:induction false} JoinGrows(routes: seq<string>, k: nat)
    requires k <= |routes|
    ensures |Join(routes[..k])| <= |Join(routes)|
    decreases |routes| - k
  {
    if k == |routes| {
      assert routes[..k] == routes;
    } else {
      JoinGrows(routes, k + 1);
      assert routes[..k + 1] == routes[..k] + [routes[k]];
      if k > 0 {
        JoinSnoc(routes[..k], routes[k]);
      }
    }
  }

  /**
   Prints a URI at a place in the buffer. It writes inside the room it is given and
   reports failure if the text does not fit; whether a text that just fits is printed
   is up to the printer.
   */
  method PrintUri(route: string, buffer: array<char>, at: nat, snug: bool) returns (written: int)
    requires at <= buffer.Length
    modifies buffer
    ensures buffer[..at] == old(buffer[..at])
    ensures written == if |route| < buffer.Length - at || (snug && |route| == buffer.Length - at) then |route| else -1
    ensures written >= 0 ==> buffer[at..at + written] == route
  {
    if |route| > buffer.Length - at || (!snug && |route| == buffer.Length - at) {
      return -1;
    }
    for i := 0 to |route|
      invariant buffer[..at] == old(buffer[..at])
      invariant buffer[at..at + i] == route[..i]
    {
      buffer[at + i] := route[i];
    }
    return |route|;
  }

  /** Puts a line feed behind what is in the buffer, unless it is empty. */
  method Separate(buffer: array<char>, len: nat) returns (at: nat)
    requires len < buffer.Length
    modifies buffer
    ensures at == (if len > 0 then len + 1 else 0)
    ensures buffer[..at] == old(buffer[..len]) + (if len > 0 then ['\n'] else [])
  {
    if len == 0 {
      return 0;
    }
    buffer[len] := '\n';
    assert buffer[..len + 1] == buffer[..len] + [buffer[len]];
    return len + 1;
  }

  /** Adds one route to the buffer; none if it is empty or leaves no room. */
  method AppendRoute(buffer: array<char>, len: nat, route: string, snug: bool) returns (next: Option<nat>)
    requires len < buffer.Length == CAPACITY
    modifies buffer
    ensures var at := if len > 0 then len + 1 else 0;
            next == if route == "" || at + |route| >= CAPACITY then None else Some(at + |route|)
    ensures next.Some? ==>
              buffer[..next.value] == (if len > 0 then old(buffer[..len]) + (['\n'] + route) else route)
  {
    var at := Separate(buffer, len);
    ghost var before := buffer[..at];
    var written := PrintUri(route, buffer, at, snug);
    if written <= 0 || at + written >= CAPACITY {
      return None;
    }
    assert buffer[..at + written] == buffer[..at] + buffer[at..at + written];
    ConcatAssociative(old(buffer[..len]), ['\n'], route);
    return Some(at + written);
  }

  method ExportRouteSet(routes: seq<string>, snug: bool) returns (text: string)
    ensures text == Exported(routes)
  {
    var buffer := new char[CAPACITY];
    var routeLen: nat := 0;
    var i: nat := 0;
    while i < |routes|
      invariant i <= |routes| && routeLen < CAPACITY
      invariant NonEmpty(routes[..i]) && buffer[..routeLen] == Join(routes[..i])
      invariant routeLen > 0 <==> i > 0
    {
      NextPrefix(routes, i);
      var next := AppendRoute(buffer, routeLen, routes[i], snug);
      if next.None? {
        return "";
      }
      routeLen := next.value;
      i := i + 1;
    }
    assert routes[..i] == routes;
    return buffer[..routeLen];
  }

  /** One more route: the joined prefix, and when it rules out the whole list. */
  lemma NextPrefix(routes: seq<string>, i: nat)
    requires i < |routes|
    ensures Join(routes[..i + 1]) == if i == 0 then routes[0] else Join(routes[..i]) + (['\n'] + routes[i])
    ensures NonEmpty(routes[..i]) && routes[i] != "" ==> NonEmpty(routes[..i + 1])
    ensures routes[i] == "" || |Join(routes[..i + 1])| >= CAPACITY ==> Exported(routes) == ""
  {
    assert routes[..i + 1] == routes[..i] + [routes[i]];
    if i > 0 {
      JoinSnoc(routes[..i], routes[i]);
    }
    JoinGrows(routes, i + 1);
  }

  // ---- Through Rust -----------------------------------------------------------------------

  predicate Separates(c: char) { c == '\0' || c == '\r' || c == '\n' }

  predicate ValidRoute(route: string) {
    route != "" && forall i :: 0 <= i < |route| ==> !Separates(route[i])
  }

  /** What Rust accepts for a restored dialog. */
  predicate ValidRoutes(routes: seq<string>) {
    forall i :: 0 <= i < |routes| ==> ValidRoute(routes[i])
  }

  // ---- Back in: the shim's cursor ------------------------------------------------------------

  /** The non-empty lines of a text, after those already found. */
  function Split(s: string, routes: seq<string> := []): seq<string>
    decreases |s|
  {
    if s == "" then routes
    else
      var n := LineEnd(s);
      var found := if n == 0 then routes else routes + [s[..n]];
      if n == |s| then found else Split(s[n + 1..], found)
  }

  /** The cursor is the text still ahead of it. */
  method SplitRouteSet(text: string) returns (routes: seq<string>)
    ensures routes == Split(text)
  {
    routes := [];
    var cursor := text;
    while cursor != ""
      invariant Split(text) == Split(cursor, routes)
      decreases |cursor|
    {
      var end := FindLineEnd(cursor);
      if end > 0 {
        routes := routes + [cursor[..end]];
      }
      if end == |cursor| {
        break;
      }
      cursor := cursor[end + 1..];
    }
  }

  method FindLineEnd(s: string) returns (end: nat)
    ensures end == LineEnd(s)
  {
    end := 0;
    while end < |s| && s[end] != '\n'
      invariant end <= |s|
      invariant LineEnd(s) == LineEnd(s, end)
    {
      end := end + 1;
    }
  }

  // ---- The round trip ------------------------------------------------------------------------

  /** A valid route in front of a joined text ends at the first line end. */
  lemma FrontRoute(route: string, rest: string)
    requires ValidRoute(route)
    ensures LineEnd(route) == |route|
    ensures LineEnd(route + (['\n'] + rest)) == |route|
  {
    LineEndAt(route, 0, |route|);
    LineEndAt(route + (['\n'] + rest), 0, |route|);
  }

  lemma FrontLine(route: string, rest: string, found: seq<string>)
    requires ValidRoute(route)
    ensures Lines(route + (['\n'] + rest)) == [route] + Lines(rest)
    ensures Split(route + (['\n'] + rest), found) == Split(rest, found + [route])
  {
    var text := route + (['\n'] + rest);
    FrontRoute(route, rest);
    assert text[..|route|] == route && text[|route| + 1..] == rest;
  }

  lemma LastLine(route: string, found: seq<string>)
    requires ValidRoute(route)
    ensures Lines(route) == [route] && Split(route, found) == found + [route]
  {
    FrontRoute(route, "");
    assert route[..|route|] == route;
  }

  lemma {:induction false} LinesOfJoin(routes: seq<string>, found: seq<string>)
    requires ValidRoutes(routes)
    ensures Lines(Join(routes)) == routes && Split(Join(routes), found) == found + routes
  {
    if |routes| == 1 {
      LastLine(routes[0], found);
    } else if |routes| > 1 {
      FrontLine(routes[0], Join(routes[1..]), found);
      LinesOfJoin(routes[1..], found + [routes[0]]);
      ConcatAssociative(found, [routes[0]], routes[1..]);
    }
  }

  lemma SplitOfJoin(routes: seq<string>)
    requires ValidRoutes(routes)
    ensures Lines(Join(routes)) == routes && Split(Join(routes)) == routes
  {
    LinesOfJoin(routes, []);
    assert [] + routes == routes;
  }

  /** Export, split into lines, check and join, copy into a command, split again; none if it is refused. */
  function RoundTrip(routes: seq<string>): Option<seq<string>> {
    var lines := Lines(Exported(routes));
    if !ValidRoutes(lines) || |Join(lines)| >= CAPACITY || '\0' in Join(lines) then None
    else Some(Split(Join(lines)))
  }

  lemma {:induction false} JoinHasNoNul(routes: seq<string>)
    requires ValidRoutes(routes)
    ensures '\0' !in Join(routes)
  {
    if |routes| > 1 {
      JoinHasNoNul(routes[1..]);
    }
  }

  /**
   The routes come back unchanged and in order exactly when each is non-empty and free
   of NUL, CR and LF, and together they fit the buffer.
   */
  lemma RoundTripExactly(routes: seq<string>)
    ensures RoundTrip(routes) == Some(routes) <==> ValidRoutes(routes) && |Join(routes)| < 4096
  {
    if ValidRoutes(routes) && |Join(routes)| < CAPACITY {
      SplitOfJoin(routes);
      JoinHasNoNul(routes);
    }
    var lines := Lines(Exported(routes));
    if ValidRoutes(lines) {
      SplitOfJoin(lines);
    }
  }

  /** A list that does not fit is exported as no routes at all, never as a part of them. */
  lemma OversizedExportsNothing(routes: seq<string>)
    requires |Join(routes)| >= CAPACITY
    ensures Exported(routes) == "" && RoundTrip(routes) == Some([])
  {
    SplitOfJoin([]);
    JoinHasNoNul([]);
  }

  /** A carriage return at the end of a route is lost on the way, unless it is the last route. */
  lemma CarriageReturnIsLost(first: string, second: string)
    requires ValidRoute(first) && ValidRoute(second) && |first| + |second| + 2 < CAPACITY
    ensures RoundTrip([first + ['\r'], second]) == Some([first, second])
  {
    var routes := [first + ['\r'], second];
    assert routes[1..] == [second] && [first, second][1..] == [second];
    var text := (first + ['\r']) + (['\n'] + second);
    assert Join(routes) == text && |text| == |first| + |second| + 2;
    assert text == first + ("\r\n" + second);
    Text.FrontLine(first, second);
    LastLine(second, []);
    assert Lines(text) == [first, second];
    assert |Join([first, second])| == |first| + |second| + 1;
    SplitOfJoin([first, second]);
    JoinHasNoNul([first, second]);
  }
}
