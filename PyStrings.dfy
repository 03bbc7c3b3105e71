/** Python's `str.split()` (no separator), `" ".join` and `"".join`, over one
    class of whitespace characters. */
module PyStrings {

  /** The whitespace class the split uses: space, tab, line feed, carriage
      return, vertical tab and form feed. */
  predicate IsSpace(c: char) {
    c == ' ' || c == '\t' || c == '\n' || c == '\r' || c == '\U{0B}' || c == '\U{0C}'
  }

  predicate NoSpace(s: string) {
    forall i :: 0 <= i < |s| ==> !IsSpace(s[i])
  }

  /** What `str.split()` can return: non-empty words without whitespace. */
  predicate IsWordList(ws: seq<string>) {
    forall i :: 0 <= i < |ws| ==> ws[i] != [] && NoSpace(ws[i])
  }

  /** `s` with its leading whitespace removed. */
  function DropSpaces(s: string): (t: string)
    ensures |t| <= |s| && t == s[|s| - |t|..]
    ensures t == [] || !IsSpace(t[0])
    ensures forall i :: 0 <= i < |s| - |t| ==> IsSpace(s[i])
  {
    if s != [] && IsSpace(s[0]) then DropSpaces(s[1..]) else s
  }

  /** The longest prefix of `s` without whitespace. */
  function TakeWord(s: string): (w: string)
    ensures |w| <= |s| && w == s[..|w|] && NoSpace(w)
    ensures |w| < |s| ==> IsSpace(s[|w|])
  {
    if s == [] || IsSpace(s[0]) then [] else [s[0]] + TakeWord(s[1..])
  }

  lemma WordListCons(w: string, ws: seq<string>)
    requires w != [] && NoSpace(w) && IsWordList(ws)
    ensures IsWordList([w] + ws)
  {
    forall i | 0 <= i < |[w] + ws| ensures ([w] + ws)[i] != [] && NoSpace(([w] + ws)[i]) {
      if i > 0 { assert ([w] + ws)[i] == ws[i - 1]; }
    }
  }

  /** `s.split()`: the maximal runs of non-whitespace characters of `s`, in order. */
  function Split(s: string): (ws: seq<string>)
    ensures IsWordList(ws)
    ensures |ws| <= |s|
    decreases |s|
  {
    var t := DropSpaces(s);
    if t == [] then []
    else
      var w := TakeWord(t);
      assert w != [];
      WordListCons(w, Split(t[|w|..]));
      [w] + Split(t[|w|..])
  }

  /** `" ".join(ws)`. */
  function Join(ws: seq<string>): string {
    if |ws| == 0 then ""
    else if |ws| == 1 then ws[0]
    else ws[0] + (" " + Join(ws[1..]))
  }

  /** `"".join(xs)`. */
  function Concat(xs: seq<string>): string {
    if xs == [] then "" else Concat(xs[..|xs| - 1]) + xs[|xs| - 1]
  }

  /** The characters of `s` that are not whitespace, in order. */
  function NonSpaces(s: string): string {
    if s == [] then ""
    else if IsSpace(s[0]) then NonSpaces(s[1..])
    else [s[0]] + NonSpaces(s[1..])
  }

  lemma {:induction false} TakeWordOfWord(w: string, rest: string)
    requires NoSpace(w)
    requires rest == [] || IsSpace(rest[0])
    ensures TakeWord(w + rest) == w
  {
    if w != [] {
      assert (w + rest)[1..] == w[1..] + rest;
      TakeWordOfWord(w[1..], rest);
    } else {
      assert w + rest == rest;
    }
  }

  lemma {:induction false} SplitLeadingSpace(c: char, s: string)
    requires IsSpace(c)
    ensures Split([c] + s) == Split(s)
  {
    assert ([c] + s)[1..] == s;
    assert DropSpaces([c] + s) == DropSpaces(s);
    SplitDropsSpaces([c] + s);
    SplitDropsSpaces(s);
  }

  /** A word followed by whitespace or by nothing is the first word of the split. */
  lemma SplitWordThen(w: string, rest: string)
    requires w != [] && NoSpace(w)
    requires rest == [] || IsSpace(rest[0])
    ensures Split(w + rest) == [w] + Split(rest)
  {
    var s := w + rest;
    assert s[0] == w[0];
    assert DropSpaces(s) == s;
    TakeWordOfWord(w, rest);
    assert s[|w|..] == rest;
  }

  /** Splitting a space-joined word list gives the list back. */
  lemma {:induction false} SplitJoin(ws: seq<string>)
    requires IsWordList(ws)
    ensures Split(Join(ws)) == ws
  {
    if |ws| == 1 {
      assert Join(ws) == ws[0] + [];
      SplitWordThen(ws[0], []);
      assert Split([]) == [];
    } else if |ws| > 1 {
      var w, rest := ws[0], Join(ws[1..]);
      WordListTail(ws);
      calc {
        Split(Join(ws));
        Split(w + ([' '] + rest));
        { SplitWordThen(w, [' '] + rest); }
        [w] + Split([' '] + rest);
        { SplitLeadingSpace(' ', rest); }
        [w] + Split(rest);
        { SplitJoin(ws[1..]); }
        [w] + ws[1..];
      }
      assert ws == [w] + ws[1..];
    }
  }

  lemma WordListTail(ws: seq<string>)
    requires IsWordList(ws) && ws != []
    ensures IsWordList(ws[1..])
  {
    forall i | 0 <= i < |ws[1..]| ensures ws[1..][i] != [] && NoSpace(ws[1..][i]) {
      assert ws[1..][i] == ws[i + 1];
    }
  }

  lemma {:induction false} ConcatAppend(xs: seq<string>, x: string)
    ensures Concat(xs + [x]) == Concat(xs) + x
  {
    assert (xs + [x])[..|xs|] == xs;
  }

  lemma ConcatSingle(x: string)
    ensures Concat([x]) == x
  {
    assert [x][..0] == [];
  }

  lemma {:induction false} ConcatJoin(xs: seq<string>, ys: seq<string>)
    ensures Concat(xs + ys) == Concat(xs) + Concat(ys)
    decreases |ys|
  {
    if ys == [] {
      assert xs + ys == xs;
    } else {
      var init := ys[..|ys| - 1];
      assert xs + ys == (xs + init) + [ys[|ys| - 1]];
      ConcatAppend(xs + init, ys[|ys| - 1]);
      ConcatJoin(xs, init);
      ConcatAppend(init, ys[|ys| - 1]);
      assert init + [ys[|ys| - 1]] == ys;
    }
  }

  /** The `i`th piece of a concatenation sits between the pieces before and after it. */
  lemma {:induction false} ConcatAt(xs: seq<string>, i: nat)
    requires i < |xs|
    ensures Concat(xs) == Concat(xs[..i]) + xs[i] + Concat(xs[i + 1..])
  {
    assert xs == xs[..i] + ([xs[i]] + xs[i + 1..]);
    ConcatJoin(xs[..i], [xs[i]] + xs[i + 1..]);
    ConcatJoin([xs[i]], xs[i + 1..]);
    ConcatSingle(xs[i]);
  }

  lemma {:induction false} NonSpacesAppend(a: string, b: string)
    ensures NonSpaces(a + b) == NonSpaces(a) + NonSpaces(b)
  {
    if a == [] {
      assert a + b == b;
    } else {
      assert (a + b)[1..] == a[1..] + b;
      NonSpacesAppend(a[1..], b);
    }
  }

  lemma {:induction false} NonSpacesOfWord(w: string)
    requires NoSpace(w)
    ensures NonSpaces(w) == w
  {
    if w != [] {
      NonSpacesOfWord(w[1..]);
      assert w == [w[0]] + w[1..];
    }
  }

  lemma {:induction false} NonSpacesOfBlank(s: string)
    requires forall i :: 0 <= i < |s| ==> IsSpace(s[i])
    ensures NonSpaces(s) == ""
  {
    if s != [] {
      NonSpacesOfBlank(s[1..]);
    }
  }

  /** `s.split()` is empty exactly when `s` is all whitespace. */
  lemma SplitEmptyIffBlank(s: string)
    ensures Split(s) == [] <==> forall i :: 0 <= i < |s| ==> IsSpace(s[i])
  {
    var t := DropSpaces(s);
    if t != [] {
      assert !IsSpace(s[|s| - |t|]);
    }
  }

  lemma SplitDropsSpaces(s: string)
    ensures Split(s) == Split(DropSpaces(s))
  {
    var t := DropSpaces(s);
    assert DropSpaces(t) == t;
  }

  /** The words of `s.split()`, put back together, are exactly the
      non-whitespace characters of `s`: no character is lost or invented. */
  lemma {:induction false} SplitKeepsNonSpaces(s: string)
    ensures Concat(Split(s)) == NonSpaces(s)
    decreases |s|, 1
  {
    var t := DropSpaces(s);
    var blank := s[..|s| - |t|];
    assert s == blank + t;
    NonSpacesAppend(blank, t);
    NonSpacesOfBlank(blank);
    SplitDropsSpaces(s);
    if t != [] {
      SplitKeepsNonSpacesFromWord(t);
    } else {
      assert Split(t) == [];
    }
  }

  lemma {:induction false} SplitKeepsNonSpacesFromWord(t: string)
    requires t != [] && !IsSpace(t[0])
    ensures Concat(Split(t)) == NonSpaces(t)
    decreases |t|, 0
  {
    var w := TakeWord(t);
    var rest := t[|w|..];
    assert t == w + rest;
    SplitWordThen(w, rest);
    NonSpacesAppend(w, rest);
    NonSpacesOfWord(w);
    SplitKeepsNonSpaces(rest);
    ConcatJoin([w], Split(rest));
    ConcatSingle(w);
  }
}
