/**
  The shell's command line, from Userland/userCodeModule/shell.c: remove_extra_spaces normalises it in
  place, and parse_arguments cuts it in place into the strings that argv points to.
 */
module Shell {

  const NUL := '\0'
  const MAX_ARGS := 10

  predicate IsBlank(c: char) { c == ' ' || c == '\t' || c == '\n' }

  // ---- C strings ----

  /** The string that starts at `from` and ends before the first NUL. */
  function StrAt(b: seq<char>, from: nat): string
    decreases |b| - from
  {
    if from >= |b| || b[from] == NUL then "" else [b[from]] + StrAt(b, from + 1)
  }

  predicate IsString(b: seq<char>, from: nat, s: string) {
    && from + |s| < |b| && b[from..from + |s|] == s && b[from + |s|] == NUL
    && forall i | 0 <= i < |s| :: s[i] != NUL
  }

  lemma {:induction false} StrAtIs(b: seq<char>, from: nat, s: string)
    requires IsString(b, from, s)
    ensures StrAt(b, from) == s
    decreases |s|
  {
    if s != "" {
      assert b[from] == s[0];
      assert b[from + 1..from + |s|] == s[1..];
      StrAtIs(b, from + 1, s[1..]);
    }
  }

  lemma OneLonger(b: seq<char>, from: nat, s: string)
    requires IsString(b, from + 1, s) && b[from] != NUL
    ensures IsString(b, from, [b[from]] + s)
  {
    var t := [b[from]] + s;
    assert from + |t| == from + 1 + |s|;
    assert b[from..from + |t|] == [b[from]] + b[from + 1..from + 1 + |s|];
    forall i | 0 <= i < |t|
      ensures t[i] != NUL
    {
      if i > 0 {
        assert t[i] == s[i - 1];
      }
    }
  }

  lemma {:induction false} StrAtIsString(b: seq<char>, from: nat)
    requires exists i :: from <= i < |b| && b[i] == NUL
    ensures IsString(b, from, StrAt(b, from))
    decreases |b| - from
  {
    if b[from] != NUL {
      StrAtIsString(b, from + 1);
      OneLonger(b, from, StrAt(b, from + 1));
    }
  }

  // ---- Words ----

  /** The maximal runs of non-blank characters, in order. */
  function Words(s: string): (ws: seq<string>)
    decreases |s|
  {
    if s == "" then []
    else
      var n, c := |s| - 1, s[|s| - 1];
      var ws := Words(s[..n]);
      if IsBlank(c) then ws
      else if n == 0 || IsBlank(s[n - 1]) || ws == [] then ws + [[c]]
      else ws[..|ws| - 1] + [ws[|ws| - 1] + [c]]
  }

  /** Words with single spaces between them. */
  function Join(ws: seq<string>): string {
    if ws == [] then ""
    else if |ws| == 1 then ws[0]
    else Join(ws[..|ws| - 1]) + " " + ws[|ws| - 1]
  }

  function Normalise(s: string): string { Join(Words(s)) }

  lemma {:induction false} SomeWord(s: string)
    requires s != "" && !IsBlank(s[|s| - 1])
    ensures Words(s) != []
  {
  }

  lemma JoinAppend(ws: seq<string>, w: string)
    ensures Join(ws + [w]) == if ws == [] then w else Join(ws) + " " + w
  {
    assert (ws + [w])[..|ws|] == ws;
  }

  /** What the loop has written after reading s. */
  function Squeezed(s: string): string {
    Normalise(s) + if s != "" && IsBlank(s[|s| - 1]) && Words(s) != [] then " " else ""
  }

  /** One more letter of the last word. */
  lemma WordsGrow(t: string, c: char)
    requires !IsBlank(c) && t != "" && !IsBlank(t[|t| - 1]) && Words(t) != []
    ensures Words(t + [c]) == Words(t)[..|Words(t)| - 1] + [Words(t)[|Words(t)| - 1] + [c]]
  {
    assert (t + [c])[..|t + [c]| - 1] == t;
  }

  lemma WordsBegin(t: string, c: char)
    requires !IsBlank(c) && (t == "" || IsBlank(t[|t| - 1]))
    ensures Words(t + [c]) == Words(t) + [[c]]
  {
    assert (t + [c])[..|t + [c]| - 1] == t;
  }

  lemma WordsSame(t: string, c: char)
    requires IsBlank(c)
    ensures Words(t + [c]) == Words(t)
  {
    assert (t + [c])[..|t + [c]| - 1] == t;
  }

  /** A longer last word makes the joined line longer by the same letter. */
  lemma JoinGrow(ws: seq<string>, c: char)
    requires ws != []
    ensures Join(ws[..|ws| - 1] + [ws[|ws| - 1] + [c]]) == Join(ws) + [c]
  {
    var k := |ws| - 1;
    assert ws == ws[..k] + [ws[k]];
    JoinAppend(ws[..k], ws[k]);
    JoinAppend(ws[..k], ws[k] + [c]);
  }

  lemma SqueezeNext(s: string, c: char)
    ensures var inSpace := s == "" || IsBlank(s[|s| - 1]);
      Squeezed(s + [c]) ==
        if IsBlank(c) then (if inSpace then Squeezed(s) else Squeezed(s) + " ") else Squeezed(s) + [c]
  {
    var ws := Words(s);
    EmptySqueezed();
    if s != "" && !IsBlank(s[|s| - 1]) {
      SomeWord(s);
    }
    hide Words, Join;
    assert (s + [c])[|s + [c]| - 1] == c;
    if IsBlank(c) {
      WordsSame(s, c);
    } else if s == "" || IsBlank(s[|s| - 1]) {
      WordsBegin(s, c);
      JoinAppend(ws, [c]);
      JoinNone();
    } else {
      WordsGrow(s, c);
      JoinGrow(ws, c);
    }
  }

  lemma JoinNone()
    ensures Join([]) == "" && Words("") == []
  {
  }

  // ---- Normalising keeps the words and is idempotent ----

  predicate IsWord(w: string) {
    w != "" && forall i | 0 <= i < |w| :: !IsBlank(w[i])
  }

  lemma {:induction false} WordsAreWords(s: string)
    ensures forall w | w in Words(s) :: IsWord(w)
    decreases |s|
  {
    if s != "" {
      var c, ws := s[|s| - 1], Words(s[..|s| - 1]);
      WordsAreWords(s[..|s| - 1]);
      if !IsBlank(c) && ws != [] {
        var w := ws[|ws| - 1];
        assert w in ws && IsWord(w + [c]) && IsWord([c]);
        assert forall v | v in ws[..|ws| - 1] :: v in ws;
      }
    }
  }

  /** A normalised line does not end in a space, so dropping the pending one completes it. */
  lemma SqueezedEnd(s: string)
    ensures var q := Squeezed(s);
      Normalise(s) == if q != "" && q[|q| - 1] == ' ' then q[..|q| - 1] else q
  {
    WordsAreWords(s);
    var ws := Words(s);
    if ws != [] {
      assert ws[|ws| - 1] in ws;
      assert !IsBlank(Join(ws)[|Join(ws)| - 1]);
    }
  }

  lemma {:induction false} WordAfterBlank(t: string, w: string)
    requires (t == "" || IsBlank(t[|t| - 1])) && IsWord(w)
    ensures Words(t + w) == Words(t) + [w]
    decreases |w|
  {
    hide Words;
    var n := |w| - 1;
    assert !IsBlank(w[n]);
    if n == 0 {
      assert w == [w[0]];
      WordsBegin(t, w[0]);
    } else {
      var v := w[..n];
      assert IsWord(v) && !IsBlank(v[n - 1]) && w == v + [w[n]];
      WordAfterBlank(t, v);
      assert t + w == (t + v) + [w[n]];
      WordsGrow(t + v, w[n]);
      assert (Words(t) + [v])[..|Words(t)|] == Words(t);
    }
  }

  /** Joining words and splitting again gives the words back. */
  lemma {:induction false} WordsOfJoin(ws: seq<string>)
    requires forall w | w in ws :: IsWord(w)
    ensures Words(Join(ws)) == ws
    decreases |ws|
  {
    if ws != [] {
      var k := |ws| - 1;
      var w := ws[k];
      WordsOfJoin(ws[..k]);
      assert ws == ws[..k] + [w];
      if k == 0 {
        WordAfterBlank("", w);
        assert "" + w == w;
      } else {
        var t := Join(ws[..k]) + " ";
        assert t[..|t| - 1] == Join(ws[..k]);
        WordAfterBlank(t, w);
      }
    }
  }

  /** Normalising keeps the words in order, and a second time changes nothing. */
  lemma NormaliseKeepsWords(s: string)
    ensures Words(Normalise(s)) == Words(s)
    ensures Normalise(Normalise(s)) == Normalise(s)
  {
    WordsAreWords(s);
    WordsOfJoin(Words(s));
  }

  // ---- What the words of a line are ----

  predicate AllBlank(s: string) { forall i | 0 <= i < |s| :: s[i] == ' ' || s[i] == '\t' || s[i] == '\n' }

  predicate NoBlank(s: string) { forall i | 0 <= i < |s| :: s[i] != ' ' && s[i] != '\t' && s[i] != '\n' }

  /** gaps[0], words[0], gaps[1], words[1], ... and the last gap, one after another. */
  function Weave(gaps: seq<string>, words: seq<string>): string
    requires |gaps| == |words| + 1
  {
    if words == [] then gaps[0]
    else Weave(gaps[..|words|], words[..|words| - 1]) + words[|words| - 1] + gaps[|words|]
  }

  /** The line is these words, in this order, with blanks before, between and after them, and nothing else. */
  ghost predicate Cuts(s: string, gaps: seq<string>, words: seq<string>) {
    && |gaps| == |words| + 1 && s == Weave(gaps, words)
    && (forall g | g in gaps :: AllBlank(g)) && (forall w | w in words :: w != "" && NoBlank(w))
    && (forall i | 0 < i < |words| :: gaps[i] != "")
  }

  /** Words cuts a line at its blanks: the words are whole, and nothing but blanks is between them. */
  lemma {:induction false} WordsCut(s: string) returns (gaps: seq<string>)
    ensures Cuts(s, gaps, Words(s))
    decreases |s|
  {
    if s == "" {
      gaps := [""];
    } else {
      var n, c := |s| - 1, s[|s| - 1];
      var before := WordsCut(s[..n]);
      var ws := Words(s[..n]);
      assert s == s[..n] + [c];
      hide Cuts;
      if IsBlank(c) {
        gaps := CutBlank(s[..n], before, ws, c);
      } else if n == 0 || IsBlank(s[n - 1]) || ws == [] {
        if n > 0 && ws != [] {
          LastGap(s[..n], before, ws);
        } else if n == 0 {
          assert s[..0] == "";
        }
        gaps := CutNew(s[..n], before, ws, c);
      } else {
        NoGap(s[..n], before, ws);
        gaps := CutGrow(s[..n], before, ws, c);
      }
    }
  }

  lemma CutBlank(s: string, before: seq<string>, ws: seq<string>, c: char) returns (gaps: seq<string>)
    requires Cuts(s, before, ws) && (c == ' ' || c == '\t' || c == '\n')
    ensures Cuts(s + [c], gaps, ws)
  {
    gaps := before[..|ws|] + [before[|ws|] + [c]];
    LongerGap(before, ws, [c]);
    hide Weave;
    assert before[|ws|] in before && AllBlank(before[|ws|] + [c]);
    assert forall g | g in before[..|ws|] :: g in before;
  }

  lemma CutNew(s: string, before: seq<string>, ws: seq<string>, c: char) returns (gaps: seq<string>)
    requires Cuts(s, before, ws) && NoBlank([c]) && (ws == [] || before[|ws|] != "")
    ensures Cuts(s + [c], gaps, ws + [[c]])
  {
    gaps := before + [""];
    NewWord(before, ws, [c]);
    hide Weave, AllBlank;
    assert AllBlank("") by { EmptyBlank(); }
    assert forall i | 0 <= i < |before| :: gaps[i] == before[i];
  }

  lemma EmptyBlank()
    ensures AllBlank("")
  {
  }

  lemma CutGrow(s: string, before: seq<string>, ws: seq<string>, c: char) returns (gaps: seq<string>)
    requires Cuts(s, before, ws) && NoBlank([c]) && ws != [] && before[|ws|] == ""
    ensures Cuts(s + [c], gaps, ws[..|ws| - 1] + [ws[|ws| - 1] + [c]])
  {
    gaps := before;
    LongerWord(before, ws, [c]);
    hide Weave, AllBlank;
    var k := |ws| - 1;
    var last := ws[k] + [c];
    assert ws[k] in ws;
    NoBlankMore(ws[k], c);
    var vs := ws[..k] + [last];
    assert |vs| == |ws|;
    forall w | w in vs
      ensures w != "" && NoBlank(w)
    {
      assert w == last || w in ws;
    }
  }

  lemma NoBlankMore(w: string, c: char)
    requires NoBlank(w) && NoBlank([c])
    ensures NoBlank(w + [c])
  {
    assert [c][0] == c;
  }

  lemma LongerGap(gaps: seq<string>, ws: seq<string>, c: string)
    requires |gaps| == |ws| + 1
    ensures Weave(gaps[..|ws|] + [gaps[|ws|] + c], ws) == Weave(gaps, ws) + c
  {
    var g := gaps[..|ws|] + [gaps[|ws|] + c];
    assert g[..|ws|] == gaps[..|ws|];
  }

  lemma NewWord(gaps: seq<string>, ws: seq<string>, c: string)
    requires |gaps| == |ws| + 1
    ensures Weave(gaps + [""], ws + [c]) == Weave(gaps, ws) + c
  {
    assert (gaps + [""])[..|ws| + 1] == gaps && (ws + [c])[..|ws|] == ws;
    assert Weave(gaps, ws) + c + "" == Weave(gaps, ws) + c;
  }

  lemma LongerWord(gaps: seq<string>, ws: seq<string>, c: string)
    requires |gaps| == |ws| + 1 && ws != [] && gaps[|ws|] == ""
    ensures Weave(gaps, ws[..|ws| - 1] + [ws[|ws| - 1] + c]) == Weave(gaps, ws) + c
  {
    var k := |ws| - 1;
    var vs := ws[..k] + [ws[k] + c];
    assert vs[..k] == ws[..k];
    assert Weave(gaps[..|ws|], ws[..k]) + (ws[k] + c) + "" == Weave(gaps[..|ws|], ws[..k]) + ws[k] + "" + c;
  }

  /** A line that ends in a blank ends in a gap; one that does not, ends in a word. */
  lemma LastGap(s: string, gaps: seq<string>, ws: seq<string>)
    requires Cuts(s, gaps, ws) && ws != [] && s != "" && IsBlank(s[|s| - 1])
    ensures gaps[|ws|] != ""
  {
    var w := ws[|ws| - 1];
    assert w in ws && s == Weave(gaps[..|ws|], ws[..|ws| - 1]) + w + gaps[|ws|];
  }

  lemma NoGap(s: string, gaps: seq<string>, ws: seq<string>)
    requires Cuts(s, gaps, ws) && ws != [] && s != "" && !IsBlank(s[|s| - 1])
    ensures gaps[|ws|] == ""
  {
    var g := gaps[|ws|];
    assert g in gaps && s == Weave(gaps[..|ws|], ws[..|ws| - 1]) + ws[|ws| - 1] + g;
  }

  // ---- remove_extra_spaces ----

  method RemoveExtraSpaces(str: array<char>)
    requires exists i :: 0 <= i < str.Length && str[i] == NUL
    modifies str
    ensures StrAt(str[..], 0) == Normalise(old(StrAt(str[..], 0)))
    ensures exists i :: 0 <= i < str.Length && str[i] == NUL
  {
    hide StrAt, Squeezed, Normalise;
    ghost var s := StrAt(str[..], 0);
    StrAtIsString(str[..], 0);
    assert str[..][0..0 + |s|] == s;
    EmptySqueezed();
    var i, j, inSpace := 0, 0, true;
    while str[i] != NUL
      invariant 0 <= j <= i <= |s| < str.Length
      invariant inSpace == (i == 0 || IsBlank(s[i - 1]))
      invariant str[..j] == Squeezed(s[..i])
      invariant forall k | 0 <= k < j :: str[k] != NUL
      invariant forall k | i <= k < |s| :: str[k] == s[k]
      invariant str[|s|] == NUL
      decreases |s| - i
    {
      var c := str[i];
      SqueezeNext(s[..i], c);
      assert s[..i] + [c] == s[..i + 1];
      i := i + 1;
      if c == ' ' || c == '\t' || c == '\n' {
        if !inSpace {
          inSpace := true;
          Put(str, j, ' ');
          j := j + 1;
        }
      } else {
        inSpace := false;
        Put(str, j, c);
        j := j + 1;
      }
    }
    assert s[..i] == s;
    SqueezedEnd(s);
    if j > 0 && str[j - 1] == ' ' {
      assert str[..j][..j - 1] == str[..j - 1];
      j := j - 1;
    }
    Put(str, j, NUL);
    EndsAt(str[..], j);
  }

  /** `str[j] = c` */
  method Put(str: array<char>, j: nat, c: char)
    requires j < str.Length
    modifies str
    ensures str[..j] == old(str[..j]) && str[..j + 1] == old(str[..j]) + [c] && str[j] == c
    ensures forall k | 0 <= k < str.Length && k != j :: str[k] == old(str[k])
  {
    str[j] := c;
  }

  lemma EndsAt(b: seq<char>, j: nat)
    requires j < |b| && b[j] == NUL && forall k | 0 <= k < j :: b[k] != NUL
    ensures StrAt(b, 0) == b[..j]
  {
    assert b[0..0 + j] == b[..j];
    StrAtIs(b, 0, b[..j]);
  }

  lemma EmptySqueezed()
    ensures Squeezed("") == ""
  {
  }

  // ---- Where the words of a normalised line are ----

  /** The offset of word k in the joined line. */
  function Offset(ws: seq<string>, k: nat): nat
    requires k <= |ws|
  {
    if k == 0 then 0 else Offset(ws, k - 1) + |ws[k - 1]| + 1
  }

  lemma {:induction false} JoinConcat(a: seq<string>, b: seq<string>)
    requires a != [] && b != []
    ensures Join(a + b) == Join(a) + " " + Join(b)
    decreases |b|
  {
    var k := |b| - 1;
    assert a + b == (a + b[..k]) + [b[k]];
    assert b == b[..k] + [b[k]];
    JoinAppend(a + b[..k], b[k]);
    JoinAppend(b[..k], b[k]);
    hide Join;
    if k == 0 {
      assert b[..0] == [] && a + [] == a;
    } else {
      JoinConcat(a, b[..k]);
    }
  }

  /** From word k on, a line reads like the line of the words from k on. */
  lemma {:induction false} JoinFrom(ws: seq<string>, k: nat)
    requires k < |ws|
    ensures Offset(ws, k) + |ws[k]| <= |Join(ws)| && Join(ws)[Offset(ws, k)..] == Join(ws[k..])
    decreases k
  {
    if k == 0 {
      assert ws[0..] == ws;
      FirstWord(ws);
    } else {
      JoinFrom(ws, k - 1);
      var o := Offset(ws, k - 1);
      FirstWord(ws[k - 1..]);
      assert ws[k - 1..][1..] == ws[k..];
      assert Join(ws)[Offset(ws, k)..] == Join(ws)[o..][|ws[k - 1]| + 1..];
      FirstWord(ws[k..]);
    }
  }

  lemma FirstWord(ws: seq<string>)
    requires ws != []
    ensures |Join(ws)| >= |ws[0]| && Join(ws)[..|ws[0]|] == ws[0]
    ensures |ws| == 1 ==> Join(ws) == ws[0]
    ensures |ws| > 1 ==> Join(ws) == ws[0] + " " + Join(ws[1..])
  {
    if |ws| > 1 {
      assert ws == ws[..1] + ws[1..];
      JoinConcat(ws[..1], ws[1..]);
    }
  }

  /** Word k of a line, and the space or the end that follows it. */
  lemma WordAt(ws: seq<string>, k: nat)
    requires k < |ws|
    ensures var s, o := Join(ws), Offset(ws, k);
      && o + |ws[k]| <= |s| && s[o..o + |ws[k]|] == ws[k]
      && (k + 1 == |ws| <==> o + |ws[k]| == |s|)
      && (k + 1 < |ws| ==> s[o + |ws[k]|] == ' ')
  {
    var s, o := Join(ws), Offset(ws, k);
    JoinFrom(ws, k);
    FirstWord(ws[k..]);
    assert s[o..][..|ws[k]|] == s[o..o + |ws[k]|];
    if k + 1 < |ws| {
      assert ws[k..][1..] == ws[k + 1..];
      assert s[o..][|ws[k]|] == ' ';
    }
  }

  // ---- parse_arguments ----

  /** At most nine arguments: the words, or eight of them and the rest of the line. */
  function Arguments(ws: seq<string>): seq<string> {
    if |ws| < MAX_ARGS then ws else ws[..MAX_ARGS - 2] + [Join(ws[MAX_ARGS - 2..])]
  }

  /** Joining the arguments with single spaces gives the line back. */
  lemma ArgumentsJoin(ws: seq<string>)
    ensures Join(Arguments(ws)) == Join(ws)
  {
    if |ws| >= MAX_ARGS {
      var n := MAX_ARGS - 2;
      assert ws == ws[..n] + ws[n..];
      JoinConcat(ws[..n], ws[n..]);
      JoinAppend(ws[..n], Join(ws[n..]));
    }
  }

  /** They are at most nine, the first eight of them words, and all of them when there are no more than nine. */
  lemma ArgumentsAre(ws: seq<string>)
    ensures |Arguments(ws)| == if |ws| <= 9 then |ws| else 9
    ensures forall k | 0 <= k < |ws| && (k < 8 || |ws| <= 9) :: Arguments(ws)[k] == ws[k]
  {
  }

  /** A line that remove_extra_spaces leaves as it is. */
  predicate IsNormal(s: string) { s == Normalise(s) }

  /** The buffer when argc arguments have begun: every space before the last of them is a NUL. */
  ghost predicate CutTo(b: seq<char>, s: string, last: int) {
    && |s| < |b| && b[|s|] == NUL && (forall x | 0 <= x < |s| :: s[x] != NUL)
    && forall x | 0 <= x < |s| :: b[x] == if s[x] == ' ' && x < last then NUL else s[x]
  }

  /** The strings argv points to in a buffer cut at the first argc words. */
  lemma CutStrings(b: seq<char>, ws: seq<string>, argc: nat, k: nat)
    requires (forall w | w in ws :: IsWord(w)) && k < argc <= |ws|
    requires CutTo(b, Join(ws), Offset(ws, argc - 1))
    ensures StrAt(b, Offset(ws, k)) == if k < argc - 1 then ws[k] else Join(ws[k..])
  {
    WordAt(ws, k);
    JoinFrom(ws, k);
    OffsetsGrow(ws, k, argc - 1);
    if k < argc - 1 {
      OffsetsGrow(ws, k + 1, argc - 1);
      NextOffset(ws, k);
      assert IsWord(ws[k]);
      hide Join, Offset;
      CutWord(b, Join(ws), Offset(ws, argc - 1), Offset(ws, k), ws[k]);
    } else {
      hide Join, Offset, IsWord;
      CutRest(b, Join(ws), Offset(ws, k));
    }
  }

  /** A word before the last cut, with the NUL that ends it. */
  lemma CutWord(b: seq<char>, s: string, last: int, o: nat, w: string)
    requires CutTo(b, s, last) && IsWord(w) && o + |w| < last && o + |w| < |s| && s[o..o + |w|] == w && s[o + |w|] == ' '
    ensures StrAt(b, o) == w
  {
    forall x | 0 <= x < |w|
      ensures b[o + x] == w[x] && w[x] != NUL
    {
      assert s[o..o + |w|][x] == s[o + x];
      LetterOf(w, x);
    }
    assert IsString(b, o, w);
    StrAtIs(b, o, w);
  }

  /** From the last cut on the line is whole. */
  lemma CutRest(b: seq<char>, s: string, o: nat)
    requires CutTo(b, s, o) && o <= |s|
    ensures StrAt(b, o) == s[o..]
  {
    var t := s[o..];
    assert forall x | 0 <= x < |t| :: t[x] == s[o + x];
    assert IsString(b, o, t);
    StrAtIs(b, o, t);
  }

  lemma {:induction false} OffsetsGrow(ws: seq<string>, j: nat, k: nat)
    requires j <= k <= |ws|
    ensures Offset(ws, j) <= Offset(ws, k)
    decreases k
  {
    if j < k {
      OffsetsGrow(ws, j, k - 1);
    }
  }

  /** Where the scan is: inside word argc - 1 of the line, or at the space or end after it. */
  ghost predicate Scanning(ws: seq<string>, argv: seq<int>, argc: nat, i: nat) {
    && 0 < argc <= |ws| && argc <= |argv|
    && Offset(ws, argc - 1) <= i <= Offset(ws, argc - 1) + |ws[argc - 1]|
    && forall k | 0 <= k < argc :: argv[k] == Offset(ws, k)
  }

  /** A character inside the current word is not a space; the one after it is, unless the line ends. */
  lemma ScanNext(ws: seq<string>, argc: nat, i: nat)
    requires (forall w | w in ws :: IsWord(w)) && 0 < argc <= |ws|
    requires Offset(ws, argc - 1) <= i <= Offset(ws, argc - 1) + |ws[argc - 1]| && i < |Join(ws)|
    ensures var s, end := Join(ws), Offset(ws, argc - 1) + |ws[argc - 1]|;
      && (s[i] == ' ' <==> i == end)
      && (i == end ==> argc < |ws| && i + 1 == Offset(ws, argc) < |s| && s[i + 1] != ' ')
  {
    var k := argc - 1;
    var s, o := Join(ws), Offset(ws, k);
    WordAt(ws, k);
    NextOffset(ws, k);
    hide Join, Offset;
    if i < o + |ws[k]| {
      LetterOf(ws[k], i - o);
      assert s[o..o + |ws[k]|][i - o] == s[i];
    } else {
      WordAt(ws, argc);
      LetterOf(ws[argc], 0);
      assert s[i + 1..i + 1 + |ws[argc]|][0] == s[i + 1];
    }
  }

  lemma NextOffset(ws: seq<string>, k: nat)
    requires k < |ws|
    ensures Offset(ws, k + 1) == Offset(ws, k) + |ws[k]| + 1
  {
  }

  lemma LetterOf(w: string, x: nat)
    requires IsWord(w)
    ensures w != "" && (x < |w| ==> w[x] != ' ')
  {
    assert x < |w| ==> !IsBlank(w[x]);
  }

  /**
    parse_arguments. argv holds offsets into the buffer, -1 for NULL. On a normalised line the strings
    it points to are the words, with any beyond the eighth left together in the ninth.
   */
  method ParseArguments(buffer: array<char>, argv: array<int>) returns (argc: nat)
    requires exists i :: 0 <= i < buffer.Length && buffer[i] == NUL
    requires argv.Length >= MAX_ARGS
    modifies buffer, argv
    ensures argc < MAX_ARGS && argv[argc] == -1
    ensures forall k | 0 <= k < argc :: 0 <= argv[k] < buffer.Length
    ensures old(StrAt(buffer[..], 0)) == "" ==> argc == 0 && buffer[..] == old(buffer[..])
    ensures var s := old(StrAt(buffer[..], 0));
      s != "" && IsNormal(s) ==>
        argc == |Arguments(Words(s))| &&
        forall k | 0 <= k < argc :: StrAt(buffer[..], argv[k]) == Arguments(Words(s))[k]
  {
    hide StrAt, Words, Join, IsWord, Offset, Arguments, Scanning, CutTo;
    ghost var s := StrAt(buffer[..], 0);
    ghost var ws := Words(s);
    StrAtIsString(buffer[..], 0);
    assert buffer[..][0..0 + |s|] == s;
    argc := 0;
    if buffer[0] == NUL {
      argv[0] := -1;
      return;
    }
    argv[0] := 0;
    argc := 1;
    var i := 0;
    ghost var normal := IsNormal(s);
    if normal {
      ScanStart(s, buffer[..], argv[..]);
    }
    while buffer[i] != NUL && argc < MAX_ARGS - 1
      invariant 0 <= i <= |s| < buffer.Length && 1 <= argc < MAX_ARGS
      invariant forall x | i <= x < |s| :: buffer[x] == s[x] != NUL
      invariant buffer[|s|] == NUL
      invariant forall k | 0 <= k < argc :: 0 <= argv[k] < buffer.Length
      invariant normal ==> Scanned(ws, s, buffer[..], argv[..], argc, i)
      decreases |s| - i
    {
      if buffer[i] == ' ' {
        ghost var at, b, v := i, buffer[..], argv[..];
        if normal {
          ScanSpace(ws, s, b, v, argc, i);
        }
        buffer[i] := NUL;
        while buffer[i + 1] == ' '
          invariant at <= i < |s| < buffer.Length && buffer[|s|] == NUL
          invariant forall x | i < x < |s| :: buffer[x] == s[x] != NUL
          invariant buffer[..] == b[at := NUL] && argv[..] == v
          invariant normal ==> i == at
          decreases |s| - i
        {
          i := i + 1;
        }
        if buffer[i + 1] != NUL {
          argv[argc] := i + 1;
          argc := argc + 1;
        }
      } else if normal {
        ScanLetter(ws, s, buffer[..], argv[..], argc, i);
      }
      i := i + 1;
    }
    if normal {
      ScanEnd(ws, s, buffer[..], argv[..], argc, i);
    }
    argv[argc] := -1;
  }

  /** The state of the scan of a normalised line. */
  ghost predicate Scanned(ws: seq<string>, s: string, b: seq<char>, argv: seq<int>, argc: nat, i: nat) {
    && s == Join(ws) && (forall w | w in ws :: IsWord(w))
    && Scanning(ws, argv, argc, i) && CutTo(b, s, Offset(ws, argc - 1))
  }

  lemma ScanStart(s: string, b: seq<char>, argv: seq<int>)
    requires s != "" && IsNormal(s) && IsString(b, 0, s) && argv != [] && argv[0] == 0
    ensures Scanned(Words(s), s, b, argv, 1, 0)
  {
    WordsAreWords(s);
    assert Words(s) != [];
    assert forall x | 0 <= x < |s| :: b[x] == b[0..0 + |s|][x];
  }

  lemma ScanLetter(ws: seq<string>, s: string, b: seq<char>, argv: seq<int>, argc: nat, i: nat)
    requires Scanned(ws, s, b, argv, argc, i) && i < |s| && b[i] == s[i] != ' '
    ensures Scanned(ws, s, b, argv, argc, i + 1)
  {
    ScanNext(ws, argc, i);
  }

  /** At a space the word is over: the space becomes a NUL and the next word begins right after it. */
  lemma ScanSpace(ws: seq<string>, s: string, b: seq<char>, argv: seq<int>, argc: nat, i: nat)
    requires Scanned(ws, s, b, argv, argc, i) && i < |s| && b[i] == s[i] == ' ' && argc < |argv|
    ensures i + 1 < |s| && s[i + 1] != ' '
    ensures Scanned(ws, s, b[i := NUL], argv[argc := i + 1], argc + 1, i + 1)
  {
    ScanNext(ws, argc, i);
    var after, last := b[i := NUL], Offset(ws, argc);
    forall x | 0 <= x < |s|
      ensures after[x] == if s[x] == ' ' && x < last then NUL else s[x]
    {
      var o := Offset(ws, argc - 1);
      if o <= x < i {
        ScanNext(ws, argc, x);
      }
    }
  }

  lemma CutAsScanned(ws: seq<string>, s: string, b: seq<char>, argv: seq<int>, argc: nat, i: nat)
    requires Scanned(ws, s, b, argv, argc, i)
    ensures (forall w | w in ws :: IsWord(w)) && CutTo(b, Join(ws), Offset(ws, argc - 1))
  {
  }

  lemma ScanEnd(ws: seq<string>, s: string, b: seq<char>, argv: seq<int>, argc: nat, i: nat)
    requires Scanned(ws, s, b, argv, argc, i) && (i == |s| || argc == MAX_ARGS - 1) && i <= |s| && argc < MAX_ARGS
    ensures argc == |Arguments(ws)|
    ensures forall k | 0 <= k < argc :: argv[k] >= 0 && StrAt(b, argv[k]) == Arguments(ws)[k]
  {
    hide Join, Offset, IsWord, StrAt, CutTo;
    WordAt(ws, argc - 1);
    forall k | 0 <= k < argc
      ensures argv[k] >= 0 && StrAt(b, argv[k]) == Arguments(ws)[k]
    {
      CutAsScanned(ws, s, b, argv, argc, i);
      CutStrings(b, ws, argc, k);
      if k == argc - 1 && argc == |ws| {
        FirstWord(ws[k..]);
      }
    }
  }
}
