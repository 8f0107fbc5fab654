/** The bilingual tokenizer: a text is split into a stream of Han runs, handed to a word
    segmenter, and a stream of ASCII-alphanumeric runs; each stream is joined with spaces
    into the string the full-text indexes are built from. The Han character class and the
    segmenter are parameters. */
module Tokenizer {

  /** The two token strings of one text. */
  datatype Tokenizer = Tokenizer(chinese: string, english: string)

  /** The English class `[a-zA-Z0-9]`. */
  predicate IsAlnum(c: char) {
    'a' <= c <= 'z' || 'A' <= c <= 'Z' || '0' <= c <= '9'
  }

  /** Length of the longest prefix of `s` whose characters all satisfy `p`. */
  function RunLen(s: string, p: char -> bool): (k: nat)
    ensures k <= |s|
    ensures forall i :: 0 <= i < k ==> p(s[i])
    ensures k == |s| || !p(s[k])
  {
    if s == [] || !p(s[0]) then 0 else 1 + RunLen(s[1..], p)
  }

  /** The leftmost maximal non-empty runs of characters satisfying `p`, in order, as a
      regular expression `[class]+` finds them with FindAllString. */
  function Runs(s: string, p: char -> bool): seq<string>
    decreases |s|
  {
    if s == [] then []
    else if !p(s[0]) then Runs(s[1..], p)
    else
      var k := RunLen(s, p);
      [s[..k]] + Runs(s[k..], p)
  }

  /** The characters of `s` that satisfy `p`, in order. */
  function Filter(s: string, p: char -> bool): string {
    if s == [] then [] else (if p(s[0]) then [s[0]] else []) + Filter(s[1..], p)
  }

  /** The strings concatenated with nothing in between. */
  function Concat(ws: seq<string>): string {
    if ws == [] then [] else ws[0] + Concat(ws[1..])
  }

  /** strings.Join: the strings with `sep` between consecutive ones. */
  function Join(ws: seq<string>, sep: string): string {
    if ws == [] then []
    else if |ws| == 1 then ws[0]
    else ws[0] + sep + Join(ws[1..], sep)
  }

  /** A word: non-empty, every character satisfying `p`. */
  predicate Word(w: string, p: char -> bool) {
    |w| > 0 && forall i :: 0 <= i < |w| ==> p(w[i])
  }

  /** A well-formed English token string: ASCII alphanumerics and single spaces, each
      space strictly inside the string with an alphanumeric on both sides. */
  predicate SpaceSeparated(e: string) {
    forall i :: 0 <= i < |e| ==>
      IsAlnum(e[i]) || (e[i] == ' ' && 0 < i < |e| - 1 && IsAlnum(e[i - 1]) && IsAlnum(e[i + 1]))
  }

  /** New tokenizes `s`: the Han runs are glued together with no separator before
      segmentation, and the alphanumeric runs are joined by single spaces. */
  function New(s: string, isHan: char -> bool, cut: string -> seq<string>): (t: Tokenizer)
    ensures t.chinese == Join(cut(Filter(s, isHan)), " ")
    ensures SpaceSeparated(t.english)
    ensures t.english == "" <==> forall i :: 0 <= i < |s| ==> !IsAlnum(s[i])
    ensures Filter(t.english, IsAlnum) == Filter(s, IsAlnum)
    ensures Runs(t.english, IsAlnum) == Runs(s, IsAlnum)
  {
    var chineseMatches := Runs(s, isHan);
    var englishMatches := Runs(s, IsAlnum);
    ConcatRuns(s, isHan);
    RunsAreWords(s, IsAlnum);
    JoinSpaceSeparated(englishMatches);
    RunsEmpty(s, IsAlnum);
    RunsOfJoin(englishMatches, IsAlnum);
    ConcatRuns(s, IsAlnum);
    FilterJoin(englishMatches);
    Tokenizer(Join(cut(Concat(chineseMatches)), " "), Join(englishMatches, " "))
  }

  lemma {:induction false} FilterAppend(s: string, t: string, p: char -> bool)
    ensures Filter(s + t, p) == Filter(s, p) + Filter(t, p)
    decreases |s|
  {
    if s != [] {
      assert (s + t)[1..] == s[1..] + t;
      FilterAppend(s[1..], t, p);
    } else {
      assert s + t == t;
    }
  }

  lemma {:induction false} FilterAll(s: string, p: char -> bool)
    requires forall i :: 0 <= i < |s| ==> p(s[i])
    ensures Filter(s, p) == s
    decreases |s|
  {
    if s != [] {
      FilterAll(s[1..], p);
    }
  }

  lemma {:induction false} FilterNone(s: string, p: char -> bool)
    requires forall i :: 0 <= i < |s| ==> !p(s[i])
    ensures Filter(s, p) == []
    decreases |s|
  {
    if s != [] {
      FilterNone(s[1..], p);
    }
  }

  /** Gluing the runs gives back exactly the characters of the class: every character
      of the class is in a run, and nothing else is. */
  lemma {:induction false} ConcatRuns(s: string, p: char -> bool)
    ensures Concat(Runs(s, p)) == Filter(s, p)
    decreases |s|
  {
    if s != [] {
      if !p(s[0]) {
        ConcatRuns(s[1..], p);
      } else {
        var k := RunLen(s, p);
        assert s == s[..k] + s[k..];
        ConcatRuns(s[k..], p);
        FilterAppend(s[..k], s[k..], p);
        FilterAll(s[..k], p);
        assert Runs(s, p)[1..] == Runs(s[k..], p);
      }
    }
  }

  /** Every run is a non-empty word of the class. */
  lemma {:induction false} RunsAreWords(s: string, p: char -> bool)
    ensures forall j :: 0 <= j < |Runs(s, p)| ==> Word(Runs(s, p)[j], p)
    decreases |s|
  {
    if s != [] {
      if !p(s[0]) {
        RunsAreWords(s[1..], p);
      } else {
        var k := RunLen(s, p);
        RunsAreWords(s[k..], p);
        forall j | 0 <= j < |Runs(s, p)| ensures Word(Runs(s, p)[j], p) {
          if j > 0 {
            assert Runs(s, p)[j] == Runs(s[k..], p)[j - 1];
          }
        }
      }
    }
  }

  /** There are no runs exactly when no character is in the class. */
  lemma {:induction false} RunsEmpty(s: string, p: char -> bool)
    ensures Runs(s, p) == [] <==> forall i :: 0 <= i < |s| ==> !p(s[i])
    decreases |s|
  {
    if s != [] && !p(s[0]) {
      RunsEmpty(s[1..], p);
      forall i | 0 <= i < |s| && (forall i' :: 0 <= i' < |s[1..]| ==> !p(s[1..][i']))
        ensures !p(s[i])
      {
        if i > 0 { assert s[i] == s[1..][i - 1]; }
      }
    }
  }

  /** Joining non-empty words of a class with a separator outside the class and splitting
      the result into runs again gives back the words. */
  lemma {:induction false} RunsOfJoin(ws: seq<string>, p: char -> bool)
    requires forall j :: 0 <= j < |ws| ==> Word(ws[j], p)
    requires !p(' ')
    ensures Runs(Join(ws, " "), p) == ws
    decreases |ws|
  {
    if ws == [] {
    } else if |ws| == 1 {
      var w := ws[0];
      RunOfWord(w, [], p);
      assert w + [] == w;
      assert w[|w|..] == [] && w[..|w|] == w;
      assert Runs(w, p) == [w] + Runs([], p);
    } else {
      var w, rest := ws[0], Join(ws[1..], " ");
      var e := w + " " + rest;
      RunOfWord(w, " " + rest, p);
      assert e == w + (" " + rest);
      assert e[|w|..] == " " + rest;
      assert e[..|w|] == w;
      assert (" " + rest)[1..] == rest;
      RunsOfJoin(ws[1..], p);
      assert Runs(e, p) == [w] + Runs(" " + rest, p);
    }
  }

  lemma {:induction false} RunOfWord(w: string, t: string, p: char -> bool)
    requires Word(w, p)
    requires t == [] || !p(t[0])
    ensures RunLen(w + t, p) == |w|
    decreases |w|
  {
    assert (w + t)[0] == w[0];
    assert (w + t)[1..] == w[1..] + t;
    if |w| == 1 {
      assert w[1..] + t == t;
    } else {
      RunOfWord(w[1..], t, p);
    }
  }

  /** The joined words keep exactly the words' characters of the class. */
  lemma {:induction false} FilterJoin(ws: seq<string>)
    requires forall j :: 0 <= j < |ws| ==> Word(ws[j], IsAlnum)
    ensures Filter(Join(ws, " "), IsAlnum) == Concat(ws)
    decreases |ws|
  {
    if ws == [] {
    } else if |ws| == 1 {
      FilterAll(ws[0], IsAlnum);
      assert Concat(ws[1..]) == [];
      assert ws[0] + [] == ws[0];
    } else {
      var w, rest := ws[0], Join(ws[1..], " ");
      FilterJoin(ws[1..]);
      FilterAppend(w + " ", rest, IsAlnum);
      FilterAppend(w, " ", IsAlnum);
      FilterAll(w, IsAlnum);
      FilterNone(" ", IsAlnum);
    }
  }

  lemma {:induction false} JoinEnds(ws: seq<string>)
    requires |ws| > 0
    requires forall j :: 0 <= j < |ws| ==> Word(ws[j], IsAlnum)
    ensures Word(ws[0], IsAlnum) && |Join(ws, " ")| > 0
    ensures Join(ws, " ")[0] == ws[0][0]
    ensures IsAlnum(Join(ws, " ")[|Join(ws, " ")| - 1])
    decreases |ws|
  {
    if |ws| > 1 {
      JoinEnds(ws[1..]);
    }
  }

  /** Joining alphanumeric words with single spaces gives a well-formed English string. */
  lemma {:induction false} JoinSpaceSeparated(ws: seq<string>)
    requires forall j :: 0 <= j < |ws| ==> Word(ws[j], IsAlnum)
    ensures SpaceSeparated(Join(ws, " "))
    decreases |ws|
  {
    if |ws| > 1 {
      var w, rest := ws[0], Join(ws[1..], " ");
      JoinSpaceSeparated(ws[1..]);
      JoinEnds(ws[1..]);
      var e := w + " " + rest;
      assert Join(ws, " ") == e;
      forall i | 0 <= i < |e|
        ensures IsAlnum(e[i]) || (e[i] == ' ' && 0 < i < |e| - 1 && IsAlnum(e[i - 1]) && IsAlnum(e[i + 1]))
      {
        if i < |w| {
          assert e[i] == w[i];
        } else if i == |w| {
          assert e[i - 1] == w[|w| - 1];
          assert e[i + 1] == rest[0];
        } else {
          var j := i - |w| - 1;
          assert e[i] == rest[j];
          if !IsAlnum(rest[j]) {
            assert e[i - 1] == rest[j - 1] && e[i + 1] == rest[j + 1];
          }
        }
      }
    }
  }
}
