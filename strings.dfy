/** The Python `str` operations the core relies on, over Dafny strings (sequences of Unicode scalars). */
module Strings {

  import opened Wrappers
  import Sequences

  /** Python's `str.isspace` on one character: the characters `str.split()` and `str.strip()` treat as blank. */
  predicate IsSpace(c: char) {
    var n := c as int;
    (9 <= n <= 13) || (0x1C <= n <= 0x20) || n == 0x85 || n == 0xA0 || n == 0x1680
    || (0x2000 <= n <= 0x200A) || n == 0x2028 || n == 0x2029 || n == 0x202F
    || n == 0x205F || n == 0x3000
  }

  /** `s.lstrip()` */
  function TrimLeft(s: string): (r: string)
    ensures |r| <= |s|
    ensures forall i :: 0 <= i < |s| - |r| ==> IsSpace(s[i])
    ensures r == [] || !IsSpace(r[0])
  {
    if s != [] && IsSpace(s[0]) then
      var r := TrimLeft(s[1..]);
      assert forall i :: 1 <= i < |s| - |r| ==> s[i] == s[1..][i - 1];
      r
    else s
  }

  /** What `s.lstrip()` leaves is the end of `s`. */
  lemma {:induction false} TrimLeftSuffix(s: string)
    ensures TrimLeft(s) == s[|s| - |TrimLeft(s)|..]
    decreases |s|
  {
    if s != [] && IsSpace(s[0]) {
      TrimLeftSuffix(s[1..]);
    }
  }

  /** `s.rstrip()` */
  function TrimRight(s: string): (r: string)
    ensures |r| <= |s| && r == s[..|r|]
    ensures forall i :: |r| <= i < |s| ==> IsSpace(s[i])
    ensures r == [] || !IsSpace(r[|r| - 1])
  {
    if s != [] && IsSpace(s[|s| - 1]) then TrimRight(s[..|s| - 1]) else s
  }

  /** `r` is the slice of `s` at `i`, and only blanks lie before and after it. */
  predicate BlankAround(s: string, r: string, i: int) {
    && 0 <= i <= |s| - |r| && r == s[i..i + |r|]
    && (forall j :: 0 <= j < i ==> IsSpace(s[j]))
    && (forall j :: i + |r| <= j < |s| ==> IsSpace(s[j]))
  }

  /**
   * `s.strip()`: `s` without its leading and trailing blanks. What is left is a slice of `s`
   * with only blanks before and after it, and it neither starts nor ends with a blank.
   */
  function Strip(s: string): (r: string)
    ensures r == [] || (!IsSpace(r[0]) && !IsSpace(r[|r| - 1]))
    ensures |r| <= |s|
    ensures exists i :: BlankAround(s, r, i)
  {
    var t := TrimLeft(s);
    var r := TrimRight(t);
    var i := |s| - |t|;
    TrimLeftSuffix(s);
    assert t == s[i..];
    assert r == s[i..i + |r|];
    assert forall j :: i + |r| <= j < |s| ==> s[j] == t[j - i];
    assert BlankAround(s, r, i);
    r
  }

  /** A text that is all blanks strips to nothing. */
  lemma StripAllBlank(s: string)
    requires forall j :: 0 <= j < |s| ==> IsSpace(s[j])
    ensures Strip(s) == []
  {
  }

  /** A text whose first and last characters are not blank is its own strip. */
  lemma StripKeeps(s: string)
    requires s != [] && !IsSpace(s[0]) && !IsSpace(s[|s| - 1])
    ensures Strip(s) == s
  {
  }

  /** The position of the first `c` in `s`. */
  function IndexOf(s: string, c: char): (i: nat)
    requires c in s
    ensures i < |s| && s[i] == c && c !in s[..i]
  {
    if s[0] == c then 0
    else
      var j := IndexOf(s[1..], c);
      assert s[..j + 1] == [s[0]] + s[1..][..j];
      j + 1
  }

  /** `s.split(c, 1)`: the text before the first `c` and, when `s` holds a `c`, the text after it. */
  function SplitOnce(s: string, c: char): (r: (string, Option<string>))
    ensures r.1.Some? <==> c in s
    ensures r.1.None? ==> r.0 == s
    ensures r.1.Some? ==> s == r.0 + [c] + r.1.value && c !in r.0
  {
    if c in s then
      var i := IndexOf(s, c);
      assert s == s[..i] + [c] + s[i + 1..];
      (s[..i], Some(s[i + 1..]))
    else (s, None)
  }

  predicate OccursAt(s: string, sep: string, j: int) {
    0 <= j && j + |sep| <= |s| && s[j..j + |sep|] == sep
  }

  /** The first position at or after `k` where `sep` occurs in `s`. */
  function FindFrom(s: string, sep: string, k: nat): (r: Option<nat>)
    requires |sep| > 0 && k <= |s|
    ensures r.Some? ==> k <= r.value && r.value + |sep| <= |s| && OccursAt(s, sep, r.value)
    ensures r.Some? ==> forall j :: k <= j < r.value ==> !OccursAt(s, sep, j)
    ensures r.None? ==> forall j :: k <= j <= |s| ==> !OccursAt(s, sep, j)
    decreases |s| - k
  {
    if k + |sep| > |s| then None
    else if s[k..k + |sep|] == sep then Some(k)
    else FindFrom(s, sep, k + 1)
  }

  /** `s.split(sep)` for a non-empty separator: every occurrence splits, empty pieces are kept. */
  function Split(s: string, sep: string): (parts: seq<string>)
    requires |sep| > 0
    ensures |parts| >= 1
    decreases |s|
  {
    match FindFrom(s, sep, 0)
    case None => [s]
    case Some(i) => [s[..i]] + Split(s[i + |sep|..], sep)
  }

  /** `sep.join(parts)` */
  function Join(parts: seq<string>, sep: string): string {
    if parts == [] then ""
    else if |parts| == 1 then parts[0]
    else parts[0] + sep + Join(parts[1..], sep)
  }

  /** Splitting and joining back with the same separator gives the original text. */
  lemma {:induction false} JoinSplit(s: string, sep: string)
    requires |sep| > 0
    ensures Join(Split(s, sep), sep) == s
    decreases |s|
  {
    match FindFrom(s, sep, 0)
    case None =>
    case Some(i) =>
      var rest := s[i + |sep|..];
      JoinSplit(rest, sep);
      SplitAt(s, sep, i);
  }

  lemma SplitFirst(s: string, sep: string, i: nat)
    requires |sep| > 0 && FindFrom(s, sep, 0) == Some(i)
    ensures Split(s, sep) == [s[..i]] + Split(s[i + |sep|..], sep)
  {
    var head, rest := s[..i], s[i + |sep|..];
    assert Split(s, sep) == [head] + Split(rest, sep);
  }

  lemma JoinCons(head: string, tail: seq<string>, sep: string)
    requires |tail| >= 1
    ensures Join([head] + tail, sep) == head + sep + Join(tail, sep)
  {
    assert ([head] + tail)[1..] == tail;
  }

  /** Where the first separator is found, joining the first piece to the joined rest gives the text back. */
  lemma SplitAt(s: string, sep: string, i: nat)
    requires |sep| > 0 && FindFrom(s, sep, 0) == Some(i)
    requires Join(Split(s[i + |sep|..], sep), sep) == s[i + |sep|..]
    ensures Join(Split(s, sep), sep) == s
  {
    var rest := s[i + |sep|..];
    var tail := Split(rest, sep);
    SplitFirst(s, sep, i);
    JoinCons(s[..i], tail, sep);
    assert OccursAt(s, sep, i);
    Rejoin(s, i, i + |sep|);
  }

  /** A text is its three slices at `i` and `j` put back together. */
  lemma Rejoin(s: string, i: nat, j: nat)
    requires i <= j <= |s|
    ensures s == s[..i] + s[i..j] + s[j..]
  {
    var a, b, c := s[..i], s[i..j], s[j..];
    assert s == a + b + c;
  }


  /** No piece of a split holds the separator. */
  lemma {:induction false} SplitPiecesFree(s: string, sep: string)
    requires |sep| > 0
    ensures forall p :: p in Split(s, sep) ==> FindFrom(p, sep, 0).None?
    decreases |s|
  {
    match FindFrom(s, sep, 0)
    case None =>
    case Some(i) =>
      var head, rest := s[..i], s[i + |sep|..];
      SplitFirst(s, sep, i);
      SplitPiecesFree(rest, sep);
      HeadFree(s, sep, i);
      assert forall p :: p in Split(s, sep) ==> p == head || p in Split(rest, sep);
  }

  /** The text before the first separator holds no separator. */
  lemma HeadFree(s: string, sep: string, i: nat)
    requires |sep| > 0 && FindFrom(s, sep, 0) == Some(i)
    ensures FindFrom(s[..i], sep, 0).None?
  {
    var head := s[..i];
    var f := FindFrom(head, sep, 0);
    if f.Some? {
      OccursInPrefix(s, sep, i, f.value);
      assert false;
    }
  }

  /** A separator found in a prefix of a text occurs at the same place in the text. */
  lemma OccursInPrefix(s: string, sep: string, i: nat, j: int)
    requires |sep| > 0 && i <= |s| && OccursAt(s[..i], sep, j)
    ensures OccursAt(s, sep, j) && j < i
  {
    var n := |sep|;
    assert s[..i][j..j + n] == s[j..j + n];
  }

  /** A one-character separator is found exactly where `IndexOf` puts it. */
  lemma FindChar(s: string, c: char)
    ensures FindFrom(s, [c], 0) == if c in s then Some(IndexOf(s, c)) else None
  {
    if c in s {
      var i := IndexOf(s, c);
      assert s[i..i + 1] == [c];
      assert OccursAt(s, [c], i);
    }
    var r := FindFrom(s, [c], 0);
    if r.Some? {
      assert s[r.value..r.value + 1] == [c];
      assert s[r.value] == c;
      assert s[..IndexOf(s, c)] == s[..r.value][..IndexOf(s, c)];
    }
  }

  /** Splitting at a character peels the piece before its first occurrence. */
  lemma SplitCharCons(s: string, c: char)
    ensures Split(s, [c]) == match SplitOnce(s, c)
                             case (head, Some(rest)) => [head] + Split(rest, [c])
                             case (head, None) => [head]
  {
    FindChar(s, c);
  }

  /** Length of the leading run of non-blank characters. */
  function WordLength(s: string): (n: nat)
    ensures n <= |s|
    ensures forall i :: 0 <= i < n ==> !IsSpace(s[i])
    ensures n < |s| ==> IsSpace(s[n])
  {
    if s == [] || IsSpace(s[0]) then 0
    else
      var n := WordLength(s[1..]);
      assert forall i :: 1 <= i < n + 1 ==> s[i] == s[1..][i - 1];
      n + 1
  }

  /** A non-empty run of non-blank characters. */
  predicate IsWord(w: string) {
    w != [] && forall i :: 0 <= i < |w| ==> !IsSpace(w[i])
  }

  /** `s.split()`: the maximal runs of non-blank characters, in order. */
  function SplitWhitespace(s: string): (words: seq<string>)
    ensures forall w :: w in words ==> IsWord(w)
    decreases |s|
  {
    var t := TrimLeft(s);
    if t == [] then []
    else
      var n := WordLength(t);
      var w := t[..n];
      assert IsWord(w) by {
        assert forall i :: 0 <= i < n ==> w[i] == t[i];
      }
      [w] + SplitWhitespace(t[n..])
  }

  /** `w` stands in `s` at `p` as a whole word: no non-blank character touches it on either side. */
  predicate WordAt(s: string, w: string, p: int) {
    && 0 <= p && p + |w| <= |s|
    && (forall i :: 0 <= i < |w| ==> s[p + i] == w[i])
    && (p == 0 || IsSpace(s[p - 1]))
    && (p + |w| == |s| || IsSpace(s[p + |w|]))
  }

  /** The words `ws`, starting at `ps`, stand in `s` as whole words, each after the previous one and a blank. */
  predicate Maximal(s: string, ws: seq<string>, ps: seq<int>) {
    && |ps| == |ws|
    && (forall k :: 0 <= k < |ws| ==> IsWord(ws[k]) && WordAt(s, ws[k], ps[k]))
    && (forall k :: 0 < k < |ws| ==> ps[k - 1] + |ws[k - 1]| < ps[k])
  }

  /** The words of `s.split()` are the maximal runs of non-blank characters of `s`, in order. */
  lemma SplitWhitespaceMaximal(s: string)
    ensures exists ps :: Maximal(s, SplitWhitespace(s), ps)
  {
    assert s[0..] == s;
    var ps := MaximalFrom(s, 0);
  }

  /**
   * The words of a suffix of `s` that begins at the start or at a blank are maximal in `s`;
   * `ps` gives where they start, all inside the suffix.
   */
  lemma {:induction false} MaximalFrom(s: string, from: nat) returns (ps: seq<int>)
    requires from <= |s| && (from == 0 || from == |s| || IsSpace(s[from]))
    ensures Maximal(s, SplitWhitespace(s[from..]), ps)
    ensures forall k :: 0 <= k < |ps| ==> from <= ps[k] && (from > 0 ==> from < ps[k])
    decreases |s| - from
  {
    var t := TrimLeft(s[from..]);
    if t == [] {
      ps := [];
    } else {
      var n := WordLength(t);
      var base := |s| - |t|;
      var next := base + n;
      var w := t[..n];
      assert SplitWhitespace(s[from..]) == [w] + SplitWhitespace(s[next..]) by {
        PeelStep(s, from, t, n);
        PeelWords(s, from, t, n);
      }
      assert && |w| == n && next <= |s| && 0 < next
             && IsWord(w) && WordAt(s, w, base) && (next < |s| ==> IsSpace(s[next]))
             && from <= base && (from > 0 ==> from < base) by {
        PeelStep(s, from, t, n);
        HeadWord(s, from, t, n);
      }
      var rest := MaximalFrom(s, next);
      ps := [base] + rest;
      MaximalGlue(s, from, w, base, SplitWhitespace(s[next..]), rest, SplitWhitespace(s[from..]), ps);
    }
  }

  /** The first word and the words after it make a maximal split that lies past `from`. */
  lemma MaximalGlue(s: string, from: int, w: string, base: int, ws: seq<string>, ps: seq<int>,
                    ws2: seq<string>, ps2: seq<int>)
    requires ws2 == [w] + ws && ps2 == [base] + ps
    requires IsWord(w) && WordAt(s, w, base) && from <= base && (from > 0 ==> from < base)
    requires Maximal(s, ws, ps) && forall k :: 0 <= k < |ps| ==> base + |w| < ps[k]
    ensures Maximal(s, ws2, ps2)
    ensures forall k :: 0 <= k < |ps2| ==> from <= ps2[k] && (from > 0 ==> from < ps2[k])
  {
    MaximalCons(s, w, base, ws, ps);
    forall k | 0 <= k < |ps2| ensures from <= ps2[k] && (from > 0 ==> from < ps2[k]) {
      if k > 0 {
        assert ps2[k] == ps[k - 1];
      }
    }
  }

  /**
   * Past `from`, the first word of `s` is peeled off: the blanks before it, its start
   * and the suffix after it, from which the rest of the words are taken.
   */
  lemma PeelStep(s: string, from: nat, t: string, n: nat)
    requires from <= |s| && t == TrimLeft(s[from..]) && t != [] && n == WordLength(t)
    ensures |t| <= |s| - from && t == s[|s| - |t|..] && n > 0
    ensures t[n..] == s[|s| - |t| + n..]
    ensures forall i :: from <= i < |s| - |t| ==> IsSpace(s[i])
  {
    TrimLeftAt(s, from);
    SuffixOfSuffix(s, |s| - |t|, n);
    PeelBlanks(s, from, |s[from..]| - |t|);
  }

  /** What `s[from..].lstrip()` leaves is the end of `s`. */
  lemma TrimLeftAt(s: string, from: nat)
    requires from <= |s|
    ensures |TrimLeft(s[from..])| <= |s| - from
    ensures TrimLeft(s[from..]) == s[|s| - |TrimLeft(s[from..])|..]
  {
    var u := s[from..];
    TrimLeftSuffix(u);
    SuffixOfSuffix(s, from, |u| - |TrimLeft(u)|);
  }

  /** The first `k` characters of `s[from..]` that are blanks are blanks of `s`. */
  lemma PeelBlanks(s: string, from: nat, k: nat)
    requires from + k <= |s| && forall i :: 0 <= i < k ==> IsSpace(s[from..][i])
    ensures forall i :: from <= i < from + k ==> IsSpace(s[i])
  {
    forall i | from <= i < from + k ensures IsSpace(s[i]) {
      assert s[from..][i - from] == s[i];
    }
  }

  /** The words past `from` are the first one and the words after it. */
  lemma PeelWords(s: string, from: nat, t: string, n: nat)
    requires from <= |s| && t == TrimLeft(s[from..]) && t != [] && n == WordLength(t)
    requires |t| <= |s| - from && t[n..] == s[|s| - |t| + n..]
    ensures SplitWhitespace(s[from..]) == [t[..n]] + SplitWhitespace(s[|s| - |t| + n..])
  {
    WordsCons(s[from..], t, n);
  }

  /** A suffix of a suffix is a suffix. */
  lemma SuffixOfSuffix<T>(s: seq<T>, a: nat, b: nat)
    requires a + b <= |s|
    ensures s[a..][b..] == s[a + b..]
  {
  }

  /** `s.split()` peels the first word off. */
  lemma WordsCons(s: string, t: string, n: nat)
    requires t == TrimLeft(s) && t != [] && n == WordLength(t)
    ensures SplitWhitespace(s) == [t[..n]] + SplitWhitespace(t[n..])
  {
  }

  /**
   * The first word after `from`, which starts the text `t` that ends `s`, stands whole in `s`
   * after the blanks that follow `from`, and is followed by a blank or the end.
   */
  lemma HeadWord(s: string, from: nat, t: string, n: nat)
    requires from <= |s| && (from == 0 || from == |s| || IsSpace(s[from]))
    requires |t| <= |s| - from && t == s[|s| - |t|..] && t != [] && !IsSpace(t[0])
    requires forall i :: from <= i < |s| - |t| ==> IsSpace(s[i])
    requires n <= |t| && (forall i :: 0 <= i < n ==> !IsSpace(t[i])) && (n < |t| ==> IsSpace(t[n]))
    ensures var base := |s| - |t|;
            && IsWord(t[..n]) && WordAt(s, t[..n], base)
            && (base + n < |s| ==> IsSpace(s[base + n]))
            && from <= base && (from > 0 ==> from < base)
  {
    var base := |s| - |t|;
    var w := t[..n];
    assert n > 0;
    assert forall i :: 0 <= i < n ==> w[i] == t[i] && t[i] == s[base + i];
    if base + n < |s| {
      assert s[base + n] == t[n];
    }
    assert s[base] == t[0];
    if base > from {
      assert IsSpace(s[base - 1]);
    }
  }

  /** A whole word, then whole words each after a blank, are the words of the text in order. */
  lemma MaximalCons(s: string, w: string, base: int, ws: seq<string>, ps: seq<int>)
    requires IsWord(w) && WordAt(s, w, base) && Maximal(s, ws, ps)
    requires forall k :: 0 <= k < |ps| ==> base + |w| < ps[k]
    ensures Maximal(s, [w] + ws, [base] + ps)
  {
    var ws2, ps2 := [w] + ws, [base] + ps;
    forall k | 0 <= k < |ws2| ensures IsWord(ws2[k]) && WordAt(s, ws2[k], ps2[k]) {
      if k > 0 {
        assert ws2[k] == ws[k - 1] && ps2[k] == ps[k - 1];
      }
    }
    forall k | 0 < k < |ws2| ensures ps2[k - 1] + |ws2[k - 1]| < ps2[k] {
      assert ws2[k] == ws[k - 1] && ps2[k] == ps[k - 1];
      if k > 1 {
        assert ws2[k - 1] == ws[k - 2] && ps2[k - 1] == ps[k - 2];
      }
    }
  }

  /** The non-blank characters of `s`, in order. */
  function NonBlank(s: string): string {
    if s == [] then []
    else (if IsSpace(s[0]) then [] else [s[0]]) + NonBlank(s[1..])
  }

  /** Concatenation of a sequence of texts. */
  function Concat(parts: seq<string>): string {
    if parts == [] then [] else parts[0] + Concat(parts[1..])
  }

  lemma {:induction false} NonBlankAppend(a: string, b: string)
    ensures NonBlank(a + b) == NonBlank(a) + NonBlank(b)
    decreases |a|
  {
    if a != [] {
      assert (a + b)[0] == a[0];
      assert (a + b)[1..] == a[1..] + b;
      NonBlankAppend(a[1..], b);
      var x := if IsSpace(a[0]) then [] else [a[0]];
      assert NonBlank(a + b) == x + NonBlank(a[1..] + b);
      assert NonBlank(a) == x + NonBlank(a[1..]);
    } else {
      assert a + b == b;
    }
  }

  lemma {:induction false} NonBlankAllBlank(s: string)
    requires forall i :: 0 <= i < |s| ==> IsSpace(s[i])
    ensures NonBlank(s) == []
    decreases |s|
  {
    if s != [] {
      NonBlankAllBlank(s[1..]);
    }
  }

  lemma {:induction false} NonBlankNoBlank(s: string)
    requires forall i :: 0 <= i < |s| ==> !IsSpace(s[i])
    ensures NonBlank(s) == s
    decreases |s|
  {
    if s != [] {
      NonBlankNoBlank(s[1..]);
    }
  }

  /** The words of `s.split()` are exactly its non-blank characters, cut at the blanks. */
  lemma {:induction false} SplitWhitespaceKeepsText(s: string)
    ensures Concat(SplitWhitespace(s)) == NonBlank(s)
    decreases |s|
  {
    var t := TrimLeft(s);
    NonBlankTrimLeft(s);
    if t != [] {
      var n := WordLength(t);
      NonBlankWord(t, n);
      SplitWhitespaceKeepsText(t[n..]);
      ConcatCons(t[..n], SplitWhitespace(t[n..]));
    }
  }

  /** Leading blanks add nothing to the non-blank characters. */
  lemma NonBlankTrimLeft(s: string)
    ensures NonBlank(s) == NonBlank(TrimLeft(s))
  {
    var t := TrimLeft(s);
    var lead := s[..|s| - |t|];
    TrimLeftSuffix(s);
    assert s == lead + t;
    NonBlankAppend(lead, t);
    NonBlankAllBlank(lead);
  }

  /** A leading word is kept whole. */
  lemma NonBlankWord(t: string, n: nat)
    requires n == WordLength(t)
    ensures NonBlank(t) == t[..n] + NonBlank(t[n..])
  {
    assert t == t[..n] + t[n..];
    NonBlankAppend(t[..n], t[n..]);
    NonBlankNoBlank(t[..n]);
  }

  lemma ConcatCons(w: string, ws: seq<string>)
    ensures Concat([w] + ws) == w + Concat(ws)
  {
    assert ([w] + ws)[1..] == ws;
  }

  /**
   * `list(filter(None, parts))`: the non-empty pieces, in order. Every non-empty piece is kept
   * as often as it occurs, no empty one is, and the order of `parts` is kept.
   */
  function DropEmpty(parts: seq<string>): (r: seq<string>)
    ensures forall p :: p in r ==> p != [] && p in parts
    ensures forall p :: p in parts && p != [] ==> p in r
    ensures |r| <= |parts|
    ensures multiset(r) == multiset(parts)[[] := 0]
    ensures Sequences.IsSubsequence(r, parts)
  {
    if parts == [] then []
    else
      var tail := parts[1..];
      var rest := DropEmpty(tail);
      assert parts == [parts[0]] + tail;
      assert multiset(parts) == multiset{parts[0]} + multiset(tail);
      if parts[0] == [] then
        assert multiset(parts)[[] := 0] == multiset(tail)[[] := 0];
        rest
      else
        var r := [parts[0]] + rest;
        assert r[1..] == rest;
        assert multiset(r) == multiset{parts[0]} + multiset(rest);
        r
  }

  predicate IsDigit(c: char) {
    '0' <= c <= '9'
  }

  /** Decimal digits with single underscores between them, the body `int()` accepts. */
  predicate WellFormedDigits(d: string) {
    && |d| > 0 && IsDigit(d[0]) && IsDigit(d[|d| - 1])
    && (forall i :: 0 <= i < |d| ==> IsDigit(d[i]) || d[i] == '_')
    && (forall i :: 0 <= i < |d| - 1 ==> d[i] == '_' ==> d[i + 1] != '_')
  }

  /** The number the digits of `d` spell, underscores ignored. */
  function DigitsValue(d: string): nat {
    if d == [] then 0
    else if IsDigit(d[|d| - 1]) then DigitsValue(d[..|d| - 1]) * 10 + (d[|d| - 1] as int - '0' as int)
    else DigitsValue(d[..|d| - 1])
  }

  /** `int(s)` on a text: blanks around it, an optional sign, then digits; `None` where Python raises. */
  function ParseInt(s: string): Option<int> {
    ParseStripped(Strip(s))
  }

  /** `int` on a text without blanks around it. */
  function ParseStripped(t: string): Option<int> {
    if |t| > 0 && (t[0] == '+' || t[0] == '-') then
      if WellFormedDigits(t[1..]) then
        var v: int := DigitsValue(t[1..]);
        Some(if t[0] == '-' then -v else v)
      else None
    else if WellFormedDigits(t) then Some(DigitsValue(t))
    else None
  }

  function DigitChar(d: nat): (c: char)
    requires d < 10
    ensures IsDigit(c) && c as int - '0' as int == d
  {
    ('0' as int + d) as char
  }

  /** The decimal digits of `n`. */
  function Decimal(n: nat): (r: string)
    ensures |r| > 0
    ensures forall i :: 0 <= i < |r| ==> IsDigit(r[i])
  {
    if n < 10 then [DigitChar(n)] else Decimal(n / 10) + [DigitChar(n % 10)]
  }

  /** `str(n)` */
  function IntToString(n: int): string {
    if n < 0 then "-" + Decimal(-n) else Decimal(n)
  }

  lemma {:induction false} DecimalValue(n: nat)
    ensures DigitsValue(Decimal(n)) == n
  {
    if n >= 10 {
      var d := Decimal(n);
      assert d[..|d| - 1] == Decimal(n / 10);
      DecimalValue(n / 10);
    }
  }

  /** `int(str(n)) == n`. */
  lemma ParseIntToString(n: int)
    ensures ParseInt(IntToString(n)) == Some(n)
  {
    var m: nat := if n < 0 then -n else n;
    var t := IntToString(n);
    var d := Decimal(m);
    StripIntToString(n);
    DecimalWellFormed(m);
    DecimalValue(m);
    if n < 0 {
      assert t == "-" + d;
      ParseNegative(d);
    } else {
      ParseUnsigned(d);
    }
  }

  /** A minus sign before well-formed digits without blanks around them. */
  lemma ParseNegative(d: string)
    requires WellFormedDigits(d)
    ensures ParseStripped("-" + d) == Some(-(DigitsValue(d) as int))
  {
    var t := "-" + d;
    var tail := t[1..];
    assert t[0] == '-' && tail == d;
  }

  /** Well-formed digits without blanks around them. */
  lemma ParseUnsigned(d: string)
    requires WellFormedDigits(d)
    ensures ParseStripped(d) == Some(DigitsValue(d))
  {
    assert IsDigit(d[0]);
  }

  /** `str(n)` has no blanks around it. */
  lemma StripIntToString(n: int)
    ensures Strip(IntToString(n)) == IntToString(n)
  {
    var t := IntToString(n);
    var d := Decimal(if n < 0 then -n else n);
    assert IsDigit(d[|d| - 1]);
    if n < 0 {
      assert t[0] == '-' && t[|t| - 1] == d[|d| - 1];
    } else {
      assert t[0] == d[0];
    }
    StripKeeps(t);
  }

  /** Decimal digits are a digit text `int()` accepts. */
  lemma DecimalWellFormed(m: nat)
    ensures WellFormedDigits(Decimal(m))
  {
    var d := Decimal(m);
    assert IsDigit(d[0]) && IsDigit(d[|d| - 1]);
  }

  /** `s.startswith(p)` */
  predicate StartsWith(s: string, p: string) {
    |p| <= |s| && s[..|p|] == p
  }

  /** Python's `p in s` on texts: `p` occurs somewhere in `s`. */
  predicate Contains(s: string, p: string) {
    exists i :: 0 <= i <= |s| - |p| && OccursAt(s, p, i)
  }

  /** A dot-free head followed by a dot splits back into that head and the rest. */
  lemma SplitOnceJoined(head: string, rest: string, c: char)
    requires c !in head
    ensures SplitOnce(head + [c] + rest, c) == (head, Some(rest))
  {
    var s := head + [c] + rest;
    assert s[|head|] == c;
    var i := IndexOf(s, c);
    assert s[..|head|] == head;
    assert s[..i] == head;
    assert s[i + 1..] == rest;
  }

  /** `os.path.basename(p)` on '/'-separated paths: the text after the last '/'. */
  function Basename(p: string): (r: string)
    ensures '/' !in r
    ensures |r| <= |p| && r == p[|p| - |r|..]
    ensures r == p || p[|p| - |r| - 1] == '/'
  {
    if p == [] || p[|p| - 1] == '/' then []
    else Basename(p[..|p| - 1]) + [p[|p| - 1]]
  }
}
