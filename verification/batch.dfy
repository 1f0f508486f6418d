// Splitting a batch of control requests (dispatchBatch in src/debug/HyprCtl.cpp).
module Batch {
  const SEPARATOR := ";"
  const DELIMITER := "\n\n\n"
  const HEADER := 9

  // How many brackets are open.
  function Depth(s: string): int {
    if s == "" then 0
    else
      var last := |s| - 1;
      Depth(s[..last]) + if s[last] == '[' then 1 else if s[last] == ']' then -1 else 0
  }

  // No semicolon stands outside all brackets.
  predicate Whole(s: string) {
    forall i :: 0 <= i < |s| && s[i] == ';' ==> Depth(s[..i]) != 0
  }

  predicate Closed(s: string) {
    Depth(s) == 0 && Whole(s)
  }

  predicate AllClosed(pieces: seq<string>) {
    forall i :: 0 <= i < |pieces| ==> Closed(pieces[i])
  }

  function Rejoin(pieces: seq<string>): string {
    if pieces == [] then ""
    else if |pieces| == 1 then pieces[0]
    else Rejoin(pieces[..|pieces| - 1]) + SEPARATOR + pieces[|pieces| - 1]
  }

  // ---- the scan ----

  datatype State = State(pieces: seq<string>, idx: nat, bracket: int)

  // After the first n characters.
  function Scan(s: string, n: nat): (st: State)
    requires n <= |s|
    ensures st.idx <= n
  {
    if n == 0 then State([], 0, 0)
    else
      Next(Scan(s, n - 1), s, n)
  }

  // One more character.
  function Next(st: State, s: string, n: nat): (r: State)
    requires st.idx < n <= |s|
    ensures r.idx <= n
  {
    var ch := s[n - 1];
    if ch == '[' then st.(bracket := st.bracket + 1)
    else if ch == ']' then st.(bracket := st.bracket - 1)
    else if ch == ';' && st.bracket == 0 then State(st.pieces + [s[st.idx..n - 1]], n, 0)
    else st
  }

  // The end of the request counts as a semicolon.
  function Pieces(s: string): seq<string> {
    var st := Scan(s, |s|);
    if st.bracket == 0 then st.pieces + [s[st.idx..]] else st.pieces
  }

  // The empty pieces are passed over, and every answer is followed by a delimiter.
  function Replies(pieces: seq<string>, answer: string -> string): string {
    if pieces == [] then ""
    else
      var last := pieces[|pieces| - 1];
      Replies(pieces[..|pieces| - 1], answer) + if last == "" then "" else answer(last) + DELIMITER
  }

  function Trimmed(reply: string): string {
    reply[..if |reply| > |DELIMITER| then |reply| - |DELIMITER| else 0]
  }

  // answer: the reply to one request, with the spaces around it taken off
  method DispatchBatch(request: string, answer: string -> string) returns (reply: string)
    requires HEADER <= |request|
    ensures reply == Trimmed(Replies(Pieces(request[HEADER..]), answer))
  {
    var s := request[HEADER..];
    reply := "";
    var bracket: int, idx: nat := 0, 0;
    ghost var pieces: seq<string> := [];
    for i := 0 to |s| + 1
      invariant i <= |s| ==> State(pieces, idx, bracket) == Scan(s, i)
      invariant i == |s| + 1 ==> pieces == Pieces(s)
      invariant reply == Replies(pieces, answer)
    {
      var ch := if i < |s| then s[i] else ';';
      if ch == '[' {
        bracket := bracket + 1;
      } else if ch == ']' {
        bracket := bracket - 1;
      } else if ch == ';' && bracket == 0 {
        var piece := s[idx..i];
        assert (pieces + [piece])[..|pieces|] == pieces;
        if i == |s| {
          assert piece == s[idx..];
        }
        pieces := pieces + [piece];
        if idx < i {
          reply := reply + (answer(piece) + DELIMITER);
        } else {
          assert reply + "" == reply;
        }
        idx := i + 1;
      }
    }
    return Trimmed(reply);
  }

  // ---- what the pieces are ----

  lemma {:induction false} DepthSum(a: string, b: string)
    ensures Depth(a + b) == Depth(a) + Depth(b)
  {
    if b == "" {
      assert a + b == a;
    } else {
      var last := |b| - 1;
      assert (a + b)[..|a| + last] == a + b[..last];
      DepthSum(a, b[..last]);
    }
  }

  lemma WholeGrows(s: string, c: char)
    requires Whole(s) && (c == ';' ==> Depth(s) != 0)
    ensures Whole(s + [c])
  {
    var t := s + [c];
    forall i | 0 <= i < |t| && t[i] == ';'
      ensures Depth(t[..i]) != 0
    {
      if i < |s| {
        assert t[..i] == s[..i];
      } else {
        assert t[..i] == s;
      }
    }
  }

  // So far: the pieces, each closed, and an open rest.
  predicate Split(s: string, st: State, n: nat)
    requires st.idx <= n <= |s|
  {
    && AllClosed(st.pieces) && Whole(s[st.idx..n]) && Depth(s[st.idx..n]) == st.bracket
    && (st.pieces == [] ==> st.idx == 0)
    && (st.pieces != [] ==> s[..st.idx] == Rejoin(st.pieces) + SEPARATOR)
  }

  lemma {:induction false} ScanSplits(s: string, n: nat)
    requires n <= |s|
    ensures Split(s, Scan(s, n), n)
  {
    if n > 0 {
      ScanSplits(s, n - 1);
      SplitNext(s, Scan(s, n - 1), n);
    }
  }

  lemma SplitNext(s: string, st: State, n: nat)
    requires st.idx < n <= |s| && Split(s, st, n - 1)
    ensures Split(s, Next(st, s, n), n)
  {
    if s[n - 1] == ';' && st.bracket == 0 {
      SplitCut(s, st, n);
    } else {
      SplitGrows(s, st, n);
    }
  }

  lemma SplitGrows(s: string, st: State, n: nat)
    requires st.idx < n <= |s| && Split(s, st, n - 1) && !(s[n - 1] == ';' && st.bracket == 0)
    ensures var more := if s[n - 1] == '[' then 1 else if s[n - 1] == ']' then -1 else 0;
      Split(s, st.(bracket := st.bracket + more), n)
  {
    var rest, ch := s[st.idx..n - 1], s[n - 1];
    assert s[st.idx..n] == rest + [ch] && (rest + [ch])[..|rest|] == rest;
    WholeGrows(rest, ch);
  }

  lemma SplitCut(s: string, st: State, n: nat)
    requires st.idx < n <= |s| && Split(s, st, n - 1) && s[n - 1] == ';' && st.bracket == 0
    ensures Split(s, State(st.pieces + [s[st.idx..n - 1]], n, 0), n)
  {
  }

  lemma RejoinMore(pieces: seq<string>, last: string)
    ensures Rejoin(pieces + [last]) == (if pieces == [] then "" else Rejoin(pieces) + SEPARATOR) + last
  {
    assert (pieces + [last])[..|pieces|] == pieces;
  }

  // A request is cut into closed pieces that give it back when rejoined, empty ones included,
  // exactly when its brackets balance; otherwise the last part is lost.
  lemma PiecesRejoin(s: string)
    ensures AllClosed(Pieces(s))
    ensures Rejoin(Pieces(s)) == s <==> Depth(s) == 0
    ensures Depth(s) == 0 ==> Pieces(s) != []
  {
    var st := Scan(s, |s|);
    ScanSplits(s, |s|);
    ScanDepth(s, |s|);
    assert s[..|s|] == s;
    if st.bracket == 0 {
      LastPart(s, st);
    } else {
      LostPart(s, st);
    }
  }

  lemma LastPart(s: string, st: State)
    requires st.idx <= |s| && Split(s, st, |s|) && st.bracket == 0
    ensures AllClosed(st.pieces + [s[st.idx..]]) && Rejoin(st.pieces + [s[st.idx..]]) == s
  {
    assert s[st.idx..|s|] == s[st.idx..];
    RejoinMore(st.pieces, s[st.idx..]);
    assert s == s[..st.idx] + s[st.idx..];
  }

  lemma LostPart(s: string, st: State)
    requires st.idx <= |s| && Split(s, st, |s|) && s != ""
    ensures AllClosed(st.pieces) && Rejoin(st.pieces) != s
  {
    assert st.pieces != [] ==> |s[..st.idx]| == |Rejoin(st.pieces)| + 1;
  }

  lemma {:induction false} ScanDepth(s: string, n: nat)
    requires n <= |s|
    ensures Scan(s, n).bracket == Depth(s[..n])
  {
    if n > 0 {
      ScanDepth(s, n - 1);
      assert s[..n][..n - 1] == s[..n - 1];
    }
  }

  // There is one way to cut a request into closed pieces.
  lemma {:induction false} CutUnique(a: seq<string>, b: seq<string>)
    requires a != [] && b != [] && AllClosed(a) && AllClosed(b) && Rejoin(a) == Rejoin(b)
    ensures a == b
    decreases |a|
  {
    var p, q := a[|a| - 1], b[|b| - 1];
    LastPiece(a, b);
    LastPiece(b, a);
    assert p == q by {
      assert p == Rejoin(a)[|Rejoin(a)| - |p|..];
      assert q == Rejoin(b)[|Rejoin(b)| - |q|..];
    }
    if |a| > 1 && |b| > 1 {
      var c, d := a[..|a| - 1], b[..|b| - 1];
      assert Rejoin(c) == Rejoin(a)[..|Rejoin(a)| - |p| - 1];
      assert Rejoin(d) == Rejoin(b)[..|Rejoin(b)| - |q| - 1];
      CutUnique(c, d);
      assert a == c + [p] && b == d + [q];
    }
  }

  // The last piece of one cut is no shorter than that of another.
  lemma LastPiece(a: seq<string>, b: seq<string>)
    requires a != [] && b != [] && AllClosed(a) && AllClosed(b) && Rejoin(a) == Rejoin(b)
    ensures |a[|a| - 1]| >= |b[|b| - 1]|
  {
    var p, q := a[|a| - 1], b[|b| - 1];
    var x := BeforeLast(a);
    var y := BeforeLast(b);
    if |p| < |q| {
      assert |a| > 1;
      Overlap(x[..|x| - 1], p, y, q);
      NotClosed(q[..|q| - |p| - 1], p);
    }
  }

  // All of a cut but its last piece, with the separator.
  lemma BeforeLast(a: seq<string>) returns (x: string)
    requires a != []
    ensures Rejoin(a) == x + a[|a| - 1]
    ensures if |a| == 1 then x == "" else x != "" && x == x[..|x| - 1] + SEPARATOR
  {
    x := if |a| == 1 then "" else Rejoin(a[..|a| - 1]) + SEPARATOR;
  }

  lemma Overlap(x: string, p: string, y: string, q: string)
    requires x + SEPARATOR + p == y + q && |p| < |q|
    ensures q == q[..|q| - |p| - 1] + SEPARATOR + p
  {
    var s := y + q;
    assert q == s[|y|..];
    assert s[|x| + 1..] == p && s[|x|] == ';';
  }

  // A separator between two stretches without open brackets is outside all brackets.
  lemma NotClosed(front: string, p: string)
    requires Depth(p) == 0
    ensures !Closed(front + SEPARATOR + p)
  {
    var q := front + SEPARATOR + p;
    DepthSum(front + SEPARATOR, p);
    DepthSum(front, SEPARATOR);
    assert SEPARATOR[..0] == "";
    assert q[|front|] == ';' && q[..|front|] == front;
  }

  // The reply is the answers with two empty lines between them, none after the last.
  function Joined(answers: seq<string>): string {
    if answers == [] then ""
    else if |answers| == 1 then answers[0]
    else Joined(answers[..|answers| - 1]) + "\n\n\n" + answers[|answers| - 1]
  }

  function Answers(pieces: seq<string>, answer: string -> string): seq<string> {
    if pieces == [] then []
    else
      var last := pieces[|pieces| - 1];
      Answers(pieces[..|pieces| - 1], answer) + if last == "" then [] else [answer(last)]
  }

  lemma {:induction false} RepliesAre(pieces: seq<string>, answer: string -> string)
    ensures var a := Answers(pieces, answer);
      Replies(pieces, answer) == if a == [] then "" else Joined(a) + DELIMITER
  {
    if pieces != [] {
      var init, last := pieces[..|pieces| - 1], pieces[|pieces| - 1];
      RepliesAre(init, answer);
      if last == "" {
        assert Replies(init, answer) + "" == Replies(init, answer);
        assert Answers(init, answer) + [] == Answers(init, answer);
      } else {
        assert Answers(pieces, answer) == Answers(init, answer) + [answer(last)];
      }
    }
  }

  lemma RepliesJoined(pieces: seq<string>, answer: string -> string)
    ensures Trimmed(Replies(pieces, answer)) == Joined(Answers(pieces, answer))
  {
    RepliesAre(pieces, answer);
  }
}
