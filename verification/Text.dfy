/** White space, words and separators in ASCII text. */
module Text {

  predicate IsSpace(c: char) {
    c == ' ' || 9 <= c as int <= 13
  }

  function TrimStart(s: string): string {
    if s != "" && IsSpace(s[0]) then TrimStart(s[1..]) else s
  }

  function TrimEnd(s: string): string {
    if s != "" && IsSpace(s[|s| - 1]) then TrimEnd(s[..|s| - 1]) else s
  }

  function Trim(s: string): string {
    TrimEnd(TrimStart(s))
  }

  predicate NoSpace(s: string) {
    forall i :: 0 <= i < |s| ==> !IsSpace(s[i])
  }

  lemma TrimIdentity(s: string)
    requires NoSpace(s)
    ensures Trim(s) == s
  {
  }

  /** Spaces on either side are trimmed off. */
  lemma TrimPadded(s: string)
    requires NoSpace(s) && s != ""
    ensures Trim(" " + s + " ") == s
  {
    var t := " " + s + " ";
    assert t[1..] == s + " " && TrimStart(s + " ") == s + " ";
    assert (s + " ")[..|s|] == s && TrimEnd(s) == s;
  }

  // ---------------------------------------------------------------------
  // Separators
  // ---------------------------------------------------------------------

  /** The first position of a character, or the length. */
  function Find(s: string, c: char): (n: nat)
    ensures n <= |s|
    ensures forall i :: 0 <= i < n ==> s[i] != c
    ensures n < |s| ==> s[n] == c
  {
    if s == "" || s[0] == c then 0 else 1 + Find(s[1..], c)
  }

  /** One past the last position of a character, or 0. */
  function FindLast(s: string, c: char): (n: nat)
    ensures n <= |s|
    ensures forall i :: n <= i < |s| ==> s[i] != c
    ensures n > 0 ==> s[n - 1] == c
  {
    if s == "" then 0 else if s[|s| - 1] == c then |s| else FindLast(s[..|s| - 1], c)
  }

  lemma FindAt(a: string, c: char, b: string)
    requires c !in a
    ensures Find(a + [c] + b, c) == |a|
  {
    var s := a + [c] + b;
    assert forall i :: 0 <= i < |a| ==> s[i] == a[i] && a[i] in a;
    assert s[|a|] == c;
  }

  lemma {:induction false} FindLastAt(a: string, c: char, b: string)
    requires c !in b
    ensures FindLast(a + [c] + b, c) == |a| + 1
  {
    var s := a + [c] + b;
    if b != "" {
      assert s[|s| - 1] == b[|b| - 1];
      assert s[..|s| - 1] == a + [c] + b[..|b| - 1];
      FindLastAt(a, c, b[..|b| - 1]);
    }
  }

  /** The pieces between separators; at least one, possibly empty. */
  function SplitOn(s: string, c: char): (r: seq<string>)
    ensures r != []
    decreases |s|
  {
    var n := Find(s, c);
    if n < |s| then [s[..n]] + SplitOn(s[n + 1..], c) else [s]
  }

  lemma SplitOnCons(a: string, c: char, b: string)
    requires c !in a
    ensures SplitOn(a + [c] + b, c) == [a] + SplitOn(b, c)
  {
    var s := a + [c] + b;
    FindAt(a, c, b);
    assert s[..|a|] == a && s[|a| + 1..] == b;
  }

  lemma SplitOnNone(a: string, c: char)
    requires c !in a
    ensures SplitOn(a, c) == [a]
  {
    var n := Find(a, c);
    assert n == |a| by {
      assert forall i :: 0 <= i < |a| ==> a[i] in a;
    }
  }

  // ---------------------------------------------------------------------
  // Words
  // ---------------------------------------------------------------------

  function WordLength(s: string): (n: nat)
    ensures n <= |s|
    ensures s != "" && !IsSpace(s[0]) ==> n > 0
  {
    if s == "" || IsSpace(s[0]) then 0 else 1 + WordLength(s[1..])
  }

  lemma {:induction false} TrimStartShrinks(s: string)
    ensures |TrimStart(s)| <= |s| && (TrimStart(s) != "" ==> !IsSpace(TrimStart(s)[0]))
  {
    if s != "" && IsSpace(s[0]) {
      TrimStartShrinks(s[1..]);
    }
  }

  /** The maximal runs without white space, in order. */
  function Words(s: string): seq<string>
    decreases |s|
  {
    TrimStartShrinks(s);
    var t := TrimStart(s);
    if t == "" then [] else [t[..WordLength(t)]] + Words(t[WordLength(t)..])
  }

  predicate IsWord(w: string) {
    w != "" && NoSpace(w)
  }

  lemma {:induction false} WordEnds(w: string, rest: string)
    requires NoSpace(w) && (rest == "" || IsSpace(rest[0]))
    ensures WordLength(w + rest) == |w|
  {
    if w == "" {
      assert w + rest == rest;
    } else {
      assert (w + rest)[1..] == w[1..] + rest;
      WordEnds(w[1..], rest);
    }
  }

  lemma WordsCons(w: string, rest: string)
    requires IsWord(w) && (rest == "" || IsSpace(rest[0]))
    ensures Words(w + rest) == [w] + Words(rest)
  {
    var s := w + rest;
    assert s[0] == w[0] && TrimStart(s) == s;
    WordEnds(w, rest);
    assert s[..|w|] == w && s[|w|..] == rest;
  }

  lemma WordsSkip(rest: string)
    ensures Words(" " + rest) == Words(rest)
  {
    assert (" " + rest)[1..] == rest;
  }

  function JoinWords(ws: seq<string>): string {
    if ws == [] then "" else if |ws| == 1 then ws[0] else ws[0] + " " + JoinWords(ws[1..])
  }

  /** Splitting at white space inverts joining with single spaces. */
  lemma {:induction false} WordsOfJoin(ws: seq<string>)
    requires forall w <- ws :: IsWord(w)
    ensures Words(JoinWords(ws)) == ws
  {
    if |ws| == 1 {
      WordsCons(ws[0], "");
      assert ws[0] + "" == ws[0];
    } else if |ws| > 1 {
      assert ws[0] in ws && forall w <- ws[1..] :: w in ws;
      WordsOfJoin(ws[1..]);
      WordsThen(ws[0], JoinWords(ws[1..]));
    }
  }

  lemma WordsThen(w: string, rest: string)
    requires IsWord(w)
    ensures Words(w + " " + rest) == [w] + Words(rest)
  {
    WordsCons(w, " " + rest);
    WordsSkip(rest);
    assert w + (" " + rest) == w + " " + rest;
  }
}
