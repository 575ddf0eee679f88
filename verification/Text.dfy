/**
 The byte strings every component works on, and the search operations of
 `std::string_view` they use.  A byte is written as a `char`; the components only
 compare bytes with one another and with ASCII constants.  A failed search
 answers the length of the string where the C++ library answers `npos`.
 */
module Text {

  datatype Option<+T> = None | Some(value: T)

  const CRLF: string := "\r\n"

  /** `sv.find(c)`: the first position holding `c`. */
  function Find(s: string, c: char): (i: nat)
    ensures i <= |s|
    ensures i < |s| ==> s[i] == c
    ensures c !in s[..i]
  {
    if s == [] || s[0] == c then 0
    else
      var i := 1 + Find(s[1..], c);
      assert s[..i] == [s[0]] + s[1..][..i - 1];
      i
  }

  /** `s.find_last_of(c)`: the last position holding `c`. */
  function FindLast(s: string, c: char): (i: nat)
    ensures i <= |s|
    ensures i < |s| ==> s[i] == c && c !in s[i + 1..]
    ensures i == |s| ==> c !in s
  {
    if s == [] then 0
    else
      var i := FindLast(s[1..], c);
      if i < |s| - 1 then i + 1 else if s[0] == c then 0 else |s|
  }

  /** `sv.find_first_not_of(c, from)`. */
  function FindNot(s: string, c: char, from: nat): (i: nat)
    requires from <= |s|
    ensures from <= i <= |s|
    ensures i < |s| ==> s[i] != c
    ensures forall j :: from <= j < i ==> s[j] == c
    decreases |s| - from
  {
    if from == |s| || s[from] != c then from else FindNot(s, c, from + 1)
  }

  predicate CrLfAt(s: string, i: nat) {
    i + 1 < |s| && s[i] == '\r' && s[i + 1] == '\n'
  }

  ghost predicate NoCrLf(s: string) {
    forall i: nat :: i < |s| ==> !CrLfAt(s, i)
  }

  /** `sv.find("\r\n")`. */
  function FindCrLf(s: string): (i: nat)
    ensures i <= |s|
    ensures i < |s| ==> CrLfAt(s, i)
    ensures forall j: nat :: j < i ==> !CrLfAt(s, j)
  {
    FindCrLfFrom(s, 0)
  }

  function FindCrLfFrom(s: string, from: nat): (i: nat)
    requires from <= |s|
    ensures from <= i <= |s|
    ensures i < |s| ==> CrLfAt(s, i)
    ensures forall j: nat :: from <= j < i ==> !CrLfAt(s, j)
    decreases |s| - from
  {
    if from == |s| || CrLfAt(s, from) then from else FindCrLfFrom(s, from + 1)
  }

  /** The contract of `Find` pins its result down. */
  lemma FindUnique(s: string, c: char, i: nat)
    requires i <= |s| && c !in s[..i] && (i < |s| ==> s[i] == c)
    ensures Find(s, c) == i
  {
  }

  lemma {:induction false} FindLastUnique(s: string, c: char, i: nat)
    requires i < |s| && s[i] == c && c !in s[i + 1..]
    ensures FindLast(s, c) == i
  {
    if i == 0 {
      assert FindLast(s[1..], c) == |s| - 1;
    } else {
      assert s[1..][i..] == s[i + 1..];
      FindLastUnique(s[1..], c, i - 1);
    }
  }

  lemma FindNotUnique(s: string, c: char, from: nat, i: nat)
    requires from <= i <= |s| && (i < |s| ==> s[i] != c)
    requires forall j :: from <= j < i ==> s[j] == c
    ensures FindNot(s, c, from) == i
  {
  }

  /** A line free of CRLF ends exactly where the first CRLF after it starts. */
  lemma FindCrLfAfterLine(line: string, rest: string)
    requires NoCrLf(line)
    ensures FindCrLf(line + CRLF + rest) == |line|
  {
    var s := line + CRLF + rest;
    assert CrLfAt(s, |line|);
    forall j: nat | j < |line|
      ensures !CrLfAt(s, j)
    {
      assert !CrLfAt(line, j);
    }
  }

  /** Whatever precedes the first CRLF is free of CRLF, and splitting there loses nothing. */
  lemma SplitAtCrLf(s: string)
    requires FindCrLf(s) < |s|
    ensures var p := FindCrLf(s);
            NoCrLf(s[..p]) && p + 2 <= |s| && s == s[..p] + CRLF + s[p + 2..]
  {
    var p := FindCrLf(s);
    forall i: nat | i < p
      ensures !CrLfAt(s[..p], i)
    {
      assert !CrLfAt(s, i);
    }
  }

  /** Appending bytes leaves the first CRLF where it was. */
  lemma FindCrLfExtends(s: string, x: string)
    requires FindCrLf(s) < |s|
    ensures FindCrLf(s + x) == FindCrLf(s)
  {
    var p := FindCrLf(s);
    assert CrLfAt(s + x, p);
    forall j: nat | j < p
      ensures !CrLfAt(s + x, j)
    {
      assert !CrLfAt(s, j);
    }
  }

  /** The concatenation of the chunks a stream arrives in. */
  function Concat(chunks: seq<string>): (s: string)
    ensures chunks == [] ==> s == ""
  {
    if chunks == [] then "" else chunks[0] + Concat(chunks[1..])
  }
}
