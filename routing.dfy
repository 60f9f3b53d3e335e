/**
 * The request classifier of the HTTP handler (api/handler/TaskHttpHandler.java):
 * `getId` and `getEndpoint` look only at the request path and method.
 *
 * Both split the path with Java's `String.split("/")`: a path with no slash
 * is its own single piece; otherwise it is cut at every slash, the leading
 * empty piece is kept and trailing empty pieces are dropped.
 */
module Routing {
  import opened Wrappers
  import Codec

  datatype Endpoint =
    | GET_TASKS | GET_SUBTASKS | GET_EPICS | GET_EPIC_SUBTASKS | GET_HISTORY | GET_PRIORITIZED
    | POST_TASK | POST_SUBTASK | POST_EPIC
    | DELETE_TASKS | DELETE_SUBTASKS | DELETE_EPICS
    | UNKNOWN

  // ---------------------------------------------------------------------
  // String.split("/")

  /** The text between slashes, every empty piece kept. */
  function Pieces(s: string): (r: seq<string>)
    ensures |r| >= 1
  {
    if s == [] then [[]]
    else if s[0] == '/' then [[]] + Pieces(s[1..])
    else
      var rest := Pieces(s[1..]);
      [[s[0]] + rest[0]] + rest[1..]
  }

  /** The pieces put back together with a slash between neighbours. */
  function JoinPieces(ps: seq<string>): string
    requires |ps| >= 1
  {
    if |ps| == 1 then ps[0] else ps[0] + ['/'] + JoinPieces(ps[1..])
  }

  /** Cutting at the slashes loses nothing, and no piece holds a slash. */
  lemma {:induction false} PiecesJoin(s: string)
    ensures JoinPieces(Pieces(s)) == s
    ensures forall i :: 0 <= i < |Pieces(s)| ==> '/' !in Pieces(s)[i]
  {
    if s != [] {
      PiecesJoin(s[1..]);
      var rest := Pieces(s[1..]);
      if s[0] == '/' {
        assert Pieces(s)[1..] == rest;
      } else {
        var ps := Pieces(s);
        assert ps[0] == [s[0]] + rest[0] && ps[1..] == rest[1..];
        if |rest| > 1 {
          assert JoinPieces(rest) == rest[0] + ['/'] + JoinPieces(rest[1..]);
        }
        assert s == [s[0]] + s[1..];
      }
    }
  }

  /** Text without a slash is one piece. */
  lemma {:induction false} PiecesOfPlain(s: string)
    requires '/' !in s
    ensures Pieces(s) == [s]
  {
    if s != [] {
      PiecesOfPlain(s[1..]);
      assert s == [s[0]] + s[1..];
    }
  }

  /** A slash between two texts joins their pieces. */
  lemma {:induction false} PiecesAppend(a: string, b: string)
    ensures Pieces(a + ['/'] + b) == Pieces(a) + Pieces(b)
  {
    if a == [] {
      assert a + ['/'] + b == ['/'] + b;
      assert (['/'] + b)[1..] == b;
    } else {
      var s := a + ['/'] + b;
      assert s[0] == a[0] && s[1..] == a[1..] + ['/'] + b;
      PiecesAppend(a[1..], b);
    }
  }

  /** Drop empty pieces from the end. */
  function DropTrailingEmpty(ps: seq<string>): (r: seq<string>)
    ensures |r| <= |ps| && r == ps[..|r|]
    ensures r == [] || r[|r| - 1] != []
    ensures forall i :: |r| <= i < |ps| ==> ps[i] == []
  {
    if ps != [] && ps[|ps| - 1] == [] then DropTrailingEmpty(ps[..|ps| - 1]) else ps
  }

  /** `s.split("/")`. */
  function Split(s: string): (r: seq<string>)
  {
    if '/' !in s then [s] else DropTrailingEmpty(Pieces(s))
  }

  /** What `split` returns: the input whole when it holds no slash; otherwise the pieces
      between slashes with the empty ones at the end removed, none holding a slash. */
  lemma SplitMeaning(s: string)
    ensures '/' !in s ==> Split(s) == [s]
    ensures '/' in s ==> Split(s) == Pieces(s)[..|Split(s)|]
    ensures '/' in s ==> forall i :: |Split(s)| <= i < |Pieces(s)| ==> Pieces(s)[i] == []
    ensures '/' in s ==> Split(s) == [] || Split(s)[|Split(s)| - 1] != []
    ensures forall i :: 0 <= i < |Split(s)| ==> '/' !in Split(s)[i]
    ensures JoinPieces(Pieces(s)) == s
  {
    PiecesJoin(s);
  }

  /** Joining slash-free pieces and cutting again gives the same pieces. */
  lemma {:induction false} PiecesOfJoin(ps: seq<string>)
    requires |ps| >= 1 && forall i :: 0 <= i < |ps| ==> '/' !in ps[i]
    ensures Pieces(JoinPieces(ps)) == ps
  {
    if |ps| == 1 {
      PiecesOfPlain(ps[0]);
    } else {
      PiecesOfJoin(ps[1..]);
      PiecesAppend(ps[0], JoinPieces(ps[1..]));
      PiecesOfPlain(ps[0]);
    }
  }

  /** A path made of slash-free pieces, the last one non-empty, splits back into them. */
  lemma SplitOfJoin(ps: seq<string>)
    requires |ps| >= 2 && forall i :: 0 <= i < |ps| ==> '/' !in ps[i]
    requires ps[|ps| - 1] != []
    ensures Split(JoinPieces(ps)) == ps
  {
    PiecesOfJoin(ps);
    assert JoinPieces(ps) == ps[0] + ['/'] + JoinPieces(ps[1..]);
  }

  /** A path `/a/b` with non-empty `b` splits into the leading empty piece, `a` and `b`. */
  lemma SplitTwoLevels(a: string, b: string)
    requires '/' !in a && '/' !in b && b != []
    ensures Split("/" + a + "/" + b) == ["", a, b]
  {
    var ps := ["", a, b];
    assert JoinPieces(ps) == "/" + a + "/" + b by {
      assert ps[1..] == [a, b] && ps[1..][1..] == [b];
      assert JoinPieces([b]) == b;
      assert JoinPieces([a, b]) == a + ['/'] + b;
      assert JoinPieces(ps) == "" + ['/'] + (a + ['/'] + b);
    }
    SplitOfJoin(ps);
  }

  /** The empty path is one empty piece; the slash-only path splits into nothing. */
  lemma SplitEdges()
    ensures Split("") == [""]
    ensures Split("/") == []
  {
    assert Pieces("/") == ["", ""] by {
      assert "/"[1..] == "";
    }
    assert '/' in "/";
    assert DropTrailingEmpty(["", ""]) == DropTrailingEmpty([""]) by {
      assert ["", ""][..1] == [""];
    }
  }

  /** Trailing slashes after a path are dropped. */
  lemma SplitTrailingSlashes(ps: seq<string>, n: nat)
    requires |ps| >= 2 && forall i :: 0 <= i < |ps| ==> '/' !in ps[i]
    requires ps[|ps| - 1] != []
    ensures Split(JoinPieces(ps + seq(n, _ => ""))) == ps
  {
    var all := ps + seq(n, _ => "");
    PiecesOfJoin(all);
    assert JoinPieces(all) == all[0] + ['/'] + JoinPieces(all[1..]);
    var r := DropTrailingEmpty(all);
    assert all[|ps| - 1] == ps[|ps| - 1] != [];
    assert forall i :: |ps| <= i < |all| ==> all[i] == [];
    assert |r| == |ps|;
    assert r == all[..|ps|] == ps;
  }

  // ---------------------------------------------------------------------
  // getId

  /** `getId`: the third piece of the path read by `Integer.parseInt`; empty when there is
      no third piece or it does not parse. */
  function GetId(path: string): (r: Option<int>)
    ensures r.Some? <==> |Split(path)| > 2 && Codec.ParseInteger(Split(path)[2], Codec.IntMin, Codec.IntMax).Ok?
    ensures r.Some? ==> r.value == Codec.ParseInteger(Split(path)[2], Codec.IntMin, Codec.IntMax).value
    ensures r.Some? ==> Codec.IntMin <= r.value <= Codec.IntMax
  {
    var parts := Split(path);
    if |parts| < 3 then None
    else
      match Codec.ParseInteger(parts[2], Codec.IntMin, Codec.IntMax)
      case Ok(v) => Some(v)
      case Err(_) => None
  }

  /** The id a path was built with is the id read back, for every int. */
  lemma GetIdRoundTrip(resource: string, id: int)
    requires '/' !in resource && Codec.IntMin <= id <= Codec.IntMax
    ensures GetId("/" + resource + "/" + Codec.DecimalText(id)) == Some(id)
  {
    var text := Codec.DecimalText(id);
    Codec.DecimalTextClean(id);
    Codec.DecimalTextNotBlank(id);
    SplitTwoLevels(resource, text);
    Codec.DecimalRoundTrip(id, Codec.IntMin, Codec.IntMax);
  }

  // ---------------------------------------------------------------------
  // getEndpoint

  /** `Character.toLowerCase` on the ASCII letters. */
  function LowerChar(c: char): char
  {
    if 'A' <= c <= 'Z' then (c as int + 32) as char else c
  }

  /** `String.toLowerCase`, letter by letter. */
  function Lower(s: string): (r: string)
    ensures |r| == |s| && forall i :: 0 <= i < |s| ==> r[i] == LowerChar(s[i])
  {
    seq(|s|, i requires 0 <= i < |s| => LowerChar(s[i]))
  }

  /** The switch on the lower-cased resource, for each of the three methods. */
  function Routed(requestMethod: string, kind: string): Option<Endpoint>
  {
    if requestMethod == "GET" then
      if kind == "tasks" then Some(GET_TASKS)
      else if kind == "epics" then Some(GET_EPICS)
      else if kind == "subtasks" then Some(GET_SUBTASKS)
      else if kind == "history" then Some(GET_HISTORY)
      else if kind == "prioritized" then Some(GET_PRIORITIZED)
      else None
    else if requestMethod == "POST" then
      if kind == "tasks" then Some(POST_TASK)
      else if kind == "epics" then Some(POST_EPIC)
      else if kind == "subtasks" then Some(POST_SUBTASK)
      else None
    else if requestMethod == "DELETE" then
      if kind == "tasks" then Some(DELETE_TASKS)
      else if kind == "epics" then Some(DELETE_EPICS)
      else if kind == "subtasks" then Some(DELETE_SUBTASKS)
      else None
    else None
  }

  /** `getEndpoint` on the pieces of the path: two or three pieces are routed by the
      request method and the case-insensitive resource; four pieces `"", "epics", x,
      "subtasks"`, matched case-sensitively, list an epic's subtasks on GET; anything
      else is UNKNOWN. */
  function Classify(parts: seq<string>, requestMethod: string): (r: Endpoint)
  {
    if 1 < |parts| < 4 && Routed(requestMethod, Lower(parts[1])).Some? then Routed(requestMethod, Lower(parts[1])).value
    else if |parts| == 4 && parts[1] == "epics" && parts[3] == "subtasks" && requestMethod == "GET" then GET_EPIC_SUBTASKS
    else UNKNOWN
  }

  /** `getEndpoint`. */
  function GetEndpoint(path: string, requestMethod: string): Endpoint
  {
    Classify(Split(path), requestMethod)
  }

  /** The resource-level endpoints each come from exactly one method and lower-cased name. */
  lemma EndpointMeaning(parts: seq<string>, requestMethod: string)
    ensures var r := Classify(parts, requestMethod);
      && (r == GET_TASKS <==> requestMethod == "GET" && 1 < |parts| < 4 && Lower(parts[1]) == "tasks")
      && (r == GET_EPICS <==> requestMethod == "GET" && 1 < |parts| < 4 && Lower(parts[1]) == "epics")
      && (r == GET_SUBTASKS <==> requestMethod == "GET" && 1 < |parts| < 4 && Lower(parts[1]) == "subtasks")
      && (r == GET_HISTORY <==> requestMethod == "GET" && 1 < |parts| < 4 && Lower(parts[1]) == "history")
      && (r == GET_PRIORITIZED <==> requestMethod == "GET" && 1 < |parts| < 4 && Lower(parts[1]) == "prioritized")
      && (r == POST_TASK <==> requestMethod == "POST" && 1 < |parts| < 4 && Lower(parts[1]) == "tasks")
      && (r == POST_EPIC <==> requestMethod == "POST" && 1 < |parts| < 4 && Lower(parts[1]) == "epics")
      && (r == POST_SUBTASK <==> requestMethod == "POST" && 1 < |parts| < 4 && Lower(parts[1]) == "subtasks")
      && (r == DELETE_TASKS <==> requestMethod == "DELETE" && 1 < |parts| < 4 && Lower(parts[1]) == "tasks")
      && (r == DELETE_EPICS <==> requestMethod == "DELETE" && 1 < |parts| < 4 && Lower(parts[1]) == "epics")
      && (r == DELETE_SUBTASKS <==> requestMethod == "DELETE" && 1 < |parts| < 4 && Lower(parts[1]) == "subtasks")
  {
  }

  /** An epic's subtask list needs GET and the exact four-piece shape. */
  lemma EpicSubtasksMeaning(parts: seq<string>, requestMethod: string)
    ensures Classify(parts, requestMethod) == GET_EPIC_SUBTASKS <==>
      requestMethod == "GET" && |parts| == 4 && parts[1] == "epics" && parts[3] == "subtasks"
  {
  }

  /** A method other than GET, POST and DELETE, or a path of more than four pieces
      or fewer than two, is UNKNOWN. */
  lemma UnknownCases(parts: seq<string>, requestMethod: string)
    ensures requestMethod != "GET" && requestMethod != "POST" && requestMethod != "DELETE" ==>
      Classify(parts, requestMethod) == UNKNOWN
    ensures |parts| > 4 || |parts| < 2 ==> Classify(parts, requestMethod) == UNKNOWN
    ensures requestMethod != "GET" && |parts| == 4 ==> Classify(parts, requestMethod) == UNKNOWN
  {
  }

  /** The resource match ignores case; the four-piece match does not; the method
      match is exact. */
  lemma CaseExamples()
    ensures Classify(["", "TASKS"], "GET") == GET_TASKS
    ensures Classify(["", "Epics", "5"], "DELETE") == DELETE_EPICS
    ensures Classify(["", "epics", "5", "subtasks"], "GET") == GET_EPIC_SUBTASKS
    ensures Classify(["", "EPICS", "5", "subtasks"], "GET") == UNKNOWN
    ensures Classify(["", "history"], "POST") == UNKNOWN
    ensures Classify(["", "tasks"], "get") == UNKNOWN
  {
    assert Lower("TASKS") == "tasks";
    assert Lower("Epics") == "epics";
    assert "EPICS" != "epics" by {
      assert "EPICS"[0] != "epics"[0];
    }
    assert "get" != "GET" by {
      assert "get"[0] != "GET"[0];
    }
  }
}
