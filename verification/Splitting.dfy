/**
  The destructive string splitter of http_server/http/Request.cpp: pieces come out with their control
  characters removed, except the last, which is what remains of the input.
 */
module Splitting {

  predicate OccursAt(s: string, d: string, i: nat) {
    i + |d| <= |s| && s[i..i + |d|] == d
  }

  ghost predicate Contains(s: string, d: string) {
    exists i: nat :: OccursAt(s, d, i)
  }

  /** `std::string::find`: the first occurrence, or -1 for `npos`. */
  function Find(s: string, d: string): (i: int)
    ensures i == -1 <==> !Contains(s, d)
    ensures i != -1 ==> 0 <= i && OccursAt(s, d, i)
    ensures forall j: nat :: j < i ==> !OccursAt(s, d, j)
  {
    FindFrom(s, d, 0)
  }

  function FindFrom(s: string, d: string, from: nat): (i: int)
    requires from <= |s|
    ensures i == -1 <==> forall j: nat :: from <= j ==> !OccursAt(s, d, j)
    ensures i != -1 ==> from <= i && OccursAt(s, d, i)
    ensures forall j: nat :: from <= j < i ==> !OccursAt(s, d, j)
    decreases |s| - from
  {
    if OccursAt(s, d, from) then from
    else if from == |s| then -1
    else FindFrom(s, d, from + 1)
  }

  /** `iscntrl` in the C locale. */
  predicate IsControl(c: char) {
    c < 32 as char || c == 127 as char
  }

  /** The string without its control characters. */
  function Clean(s: string): string {
    if s == "" then ""
    else if IsControl(s[0]) then Clean(s[1..])
    else [s[0]] + Clean(s[1..])
  }

  ghost predicate ControlFree(s: string) {
    forall k :: 0 <= k < |s| ==> !IsControl(s[k])
  }

  lemma {:induction false} CleanKeeps(s: string)
    requires ControlFree(s)
    ensures Clean(s) == s
  {
    if s != "" {
      CleanKeeps(s[1..]);
    }
  }

  lemma CleanUnfolds(s: string)
    requires s != ""
    ensures Clean(s) == (if IsControl(s[0]) then "" else [s[0]]) + Clean(s[1..])
  {
  }

  lemma {:induction false} CleanAppend(s: string, t: string)
    ensures Clean(s + t) == Clean(s) + Clean(t)
  {
    if s == "" {
      assert s + t == t;
    } else {
      hide Clean, IsControl;
      var rest, first := s[1..], if IsControl(s[0]) then "" else [s[0]];
      CleanAppend(rest, t);
      CleanUnfolds(s);
      assert (s + t)[1..] == rest + t;
      CleanUnfolds(s + t);
      assert first + (Clean(rest) + Clean(t)) == first + Clean(rest) + Clean(t);
    }
  }

  /** Exactly the characters below the blank and the one behind the tilde vanish, wherever they stand. */
  lemma OneCharacter(s: string, c: char, t: string)
    ensures Clean(s + [c] + t)
         == if c < ' ' || c as int == '~' as int + 1 then Clean(s + t) else Clean(s) + [c] + Clean(t)
  {
    CleanAppend(s + [c], t);
    CleanAppend(s, [c]);
    CleanAppend(s, t);
    assert [c][1..] == "";
    assert Clean([c]) == if IsControl(c) then "" else [c];
  }

  lemma LineEndsVanish()
    ensures Clean("\r") == Clean("\n") == Clean("\t") == Clean("\0") == ""
  {
  }

  lemma {:induction false} CleanIsControlFree(s: string)
    ensures ControlFree(Clean(s))
  {
    if s != "" {
      CleanIsControlFree(s[1..]);
    }
  }

  /** The pieces between the delimiters as they stand in the input. */
  function RawPieces(s: string, d: string): (ps: seq<string>)
    requires d != ""
    ensures ps != []
    decreases |s|
  {
    var i := Find(s, d);
    if i == -1 then [s] else [s[..i]] + RawPieces(s[i + |d|..], d)
  }

  /** The tokens `string_split` returns. */
  function Split(s: string, d: string): (ts: seq<string>)
    requires d != ""
    ensures ts != []
    decreases |s|
  {
    var i := Find(s, d);
    if i == -1 then [s] else [Clean(s[..i])] + Split(s[i + |d|..], d)
  }

  function Last(ts: seq<string>): string
    requires ts != []
  {
    ts[|ts| - 1]
  }

  function Join(ps: seq<string>, d: string): string
    requires ps != []
  {
    if |ps| == 1 then ps[0] else ps[0] + d + Join(ps[1..], d)
  }

  lemma SplitAtOccurrence(s: string, d: string, i: nat)
    requires OccursAt(s, d, i)
    ensures i + |d| <= |s| && s == s[..i] + d + s[i + |d|..]
  {
  }

  /** Nothing before the first occurrence contains the delimiter. */
  lemma NoneBefore(s: string, d: string, i: nat)
    requires d != "" && i <= |s| && forall j: nat :: j < i ==> !OccursAt(s, d, j)
    ensures !Contains(s[..i], d)
  {
    forall j: nat
      ensures !OccursAt(s[..i], d, j)
    {
      if j + |d| <= i {
        assert s[j..j + |d|] == s[..i][j..j + |d|];
        assert !OccursAt(s, d, j);
      }
    }
  }

  /** Joining the raw pieces restores the input. */
  lemma {:induction false} JoinRestores(s: string, d: string)
    requires d != ""
    ensures Join(RawPieces(s, d), d) == s
    decreases |s|
  {
    var i := Find(s, d);
    if i != -1 {
      SplitAtOccurrence(s, d, i);
      hide OccursAt, Contains;
      var rest := s[i + |d|..];
      JoinRestores(rest, d);
      assert RawPieces(s, d)[1..] == RawPieces(rest, d);
    }
  }

  /** No raw piece contains the delimiter. */
  lemma {:induction false} NoDelimiterInside(s: string, d: string, k: nat)
    requires d != "" && k < |RawPieces(s, d)|
    ensures !Contains(RawPieces(s, d)[k], d)
    decreases |s|
  {
    var i := Find(s, d);
    if i != -1 {
      SplitAtOccurrence(s, d, i);
      NoneBefore(s, d, i);
      hide OccursAt, Contains;
      if k > 0 {
        NoDelimiterInside(s[i + |d|..], d, k - 1);
      }
    }
  }

  /** Every token but the last is its raw piece without control characters; the last is not cleaned. */
  lemma {:induction false} TokensAreCleanedPieces(s: string, d: string)
    requires d != ""
    ensures var ts, ps := Split(s, d), RawPieces(s, d);
            && |ts| == |ps| && Last(ts) == Last(ps)
            && forall k :: 0 <= k < |ts| - 1 ==> ts[k] == Clean(ps[k])
    decreases |s|
  {
    var i := Find(s, d);
    if i != -1 {
      SplitAtOccurrence(s, d, i);
      hide OccursAt, Contains, Clean;
      TokensAreCleanedPieces(s[i + |d|..], d);
    }
  }

  /** The tokens are free of control characters if and only if the last piece of the input is. */
  lemma TokensAreControlFreeIff(s: string, d: string)
    requires d != ""
    ensures forall k :: 0 <= k < |Split(s, d)| - 1 ==> ControlFree(Split(s, d)[k])
    ensures (forall k :: 0 <= k < |Split(s, d)| ==> ControlFree(Split(s, d)[k])) <==> ControlFree(Last(RawPieces(s, d)))
  {
    TokensAreCleanedPieces(s, d);
    hide Split, RawPieces, Clean, ControlFree;
    var ts, ps := Split(s, d), RawPieces(s, d);
    forall k | 0 <= k < |ts| - 1
      ensures ControlFree(ts[k])
    {
      CleanIsControlFree(ps[k]);
    }
    assert Last(ts) == ts[|ts| - 1];
  }

  /** On input without control characters joining the tokens restores the input. */
  lemma {:induction false} TokensRestoreCleanInput(s: string, d: string)
    requires d != "" && ControlFree(s)
    ensures Split(s, d) == RawPieces(s, d) && Join(Split(s, d), d) == s
    decreases |s|
  {
    JoinRestores(s, d);
    var i := Find(s, d);
    if i != -1 {
      CleanKeeps(s[..i]);
      TokensRestoreCleanInput(s[i + |d|..], d);
    }
  }

  lemma SplitUnfolds(s: string, d: string)
    requires d != ""
    ensures var i := Find(s, d);
            if i == -1 then Split(s, d) == [s]
            else 0 <= i && i + |d| <= |s| && Split(s, d) == [Clean(s[..i])] + Split(s[i + |d|..], d)
  {
  }

  /** `string_split`.  The input is taken by reference; `rest` is what the call leaves of it. */
  method StringSplit(input: string, delimiter: string) returns (tokens: seq<string>, rest: string)
    requires delimiter != ""
    ensures tokens == Split(input, delimiter) && rest == Last(RawPieces(input, delimiter)) == Last(tokens)
  {
    hide OccursAt, Contains, RawPieces, Split, Clean;
    tokens := [];
    rest := input;
    var position := Find(rest, delimiter);
    while position != -1
      invariant position == Find(rest, delimiter)
      invariant tokens + Split(rest, delimiter) == Split(input, delimiter)
      decreases |rest|
    {
      SplitAtOccurrence(rest, delimiter, position);
      SplitUnfolds(rest, delimiter);
      var token := Clean(rest[..position]);
      tokens := tokens + [token];
      rest := rest[position + |delimiter|..];
      position := Find(rest, delimiter);
    }
    SplitUnfolds(rest, delimiter);
    tokens := tokens + [rest];
    TokensAreCleanedPieces(input, delimiter);
  }

  // ----- splitting what was joined -----------------------------------------------------------------

  /** A delimiter that cannot straddle the border between a piece and itself. */
  predicate Sharp(d: string) {
    |d| == 1 || (|d| == 2 && d[0] != d[1])
  }

  lemma FindDelimiter(p: string, d: string, rest: string)
    requires Sharp(d) && !Contains(p, d)
    ensures Find(p + d + rest, d) == |p|
  {
    var s := p + d + rest;
    assert s[|p|..|p| + |d|] == d;
    assert OccursAt(s, d, |p|);
    forall j: nat | j < |p|
      ensures !OccursAt(s, d, j)
    {
      if j + |d| <= |p| {
        assert s[j..j + |d|] == p[j..j + |d|];
        assert !OccursAt(p, d, j);
      } else {
        assert s[j..j + |d|][1] == s[|p|] == d[0];
      }
    }
  }

  /** The splitter takes one joined piece off. */
  lemma SplitOne(p: string, d: string, rest: string)
    requires Sharp(d) && !Contains(p, d)
    ensures Split(p + d + rest, d) == [Clean(p)] + Split(rest, d)
  {
    FindDelimiter(p, d, rest);
    var s := p + d + rest;
    assert s[..|p|] == p && s[|p| + |d|..] == rest;
  }

  lemma SplitNone(s: string, d: string)
    requires d != "" && !Contains(s, d)
    ensures Split(s, d) == [s]
  {
  }

  lemma RawUnfolds(p: string, d: string, rest: string)
    requires Sharp(d) && !Contains(p, d)
    ensures RawPieces(p + d + rest, d) == [p] + RawPieces(rest, d)
  {
    FindDelimiter(p, d, rest);
    var s := p + d + rest;
    assert s[..|p|] == p && s[|p| + |d|..] == rest;
  }

  /** The raw pieces of what was joined are the pieces, whatever other characters they have. */
  lemma {:induction false} RawPiecesOfJoin(ps: seq<string>, d: string)
    requires Sharp(d) && ps != [] && forall k :: 0 <= k < |ps| ==> !Contains(ps[k], d)
    ensures RawPieces(Join(ps, d), d) == ps
  {
    hide Contains;
    if |ps| == 1 {
      assert Find(ps[0], d) == -1;
    } else {
      hide RawPieces;
      RawPiecesOfJoin(ps[1..], d);
      RawUnfolds(ps[0], d, Join(ps[1..], d));
      assert ps == [ps[0]] + ps[1..];
    }
  }

  /** Splitting what was joined gives the pieces back, if they contain neither the delimiter nor control
      characters. */
  lemma {:induction false} SplitOfJoin(ps: seq<string>, d: string)
    requires Sharp(d) && ps != [] && forall k :: 0 <= k < |ps| ==> ControlFree(ps[k]) && !Contains(ps[k], d)
    ensures Split(Join(ps, d), d) == ps
  {
    hide Split, Contains, ControlFree, Clean;
    if |ps| == 1 {
      SplitNone(ps[0], d);
    } else {
      CleanKeeps(ps[0]);
      SplitOfJoin(ps[1..], d);
      SplitOne(ps[0], d, Join(ps[1..], d));
      assert ps == [ps[0]] + ps[1..];
    }
  }

  /** A single character does not occur in a string it is no member of. */
  lemma NoOccurrence(s: string, c: char)
    requires c !in s
    ensures !Contains(s, [c])
  {
    forall i: nat
      ensures !OccursAt(s, [c], i)
    {
      if i < |s| {
        assert s[i..i + 1][0] == s[i];
      }
    }
  }
}
