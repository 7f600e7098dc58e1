/** Normalisation of phrases: split into fields, lower, drop stop words, stem, collect. */
module Words {
  import opened Common

  /** The library functions: letter-or-digit test, lower-casing, stop words and stemmer. */
  datatype Lexicon = Lexicon(
    isWordRune: char -> bool,
    lower: string -> string,
    isStop: string -> bool,
    stem: string -> string)

  predicate AllWord(lex: Lexicon, s: string) {
    forall i :: 0 <= i < |s| ==> lex.isWordRune(s[i])
  }

  predicate AllSeparators(lex: Lexicon, s: string) {
    forall i :: 0 <= i < |s| ==> !lex.isWordRune(s[i])
  }

  /** The fields of `s`, when the unfinished field `cur` stands before it. */
  function Scan(lex: Lexicon, s: string, cur: string): seq<string>
    decreases |s|
  {
    var done := if cur == [] then [] else [cur];
    if s == [] then done
    else if lex.isWordRune(s[0]) then Scan(lex, s[1..], cur + [s[0]])
    else done + Scan(lex, s[1..], [])
  }

  function Fields(lex: Lexicon, s: string): seq<string> {
    Scan(lex, s, [])
  }

  /** `w` is a maximal non-empty run of word runes in `s`. */
  ghost predicate IsField(lex: Lexicon, s: string, w: string) {
    exists i, j :: IsRun(lex, s, w, i, j)
  }

  predicate IsRun(lex: Lexicon, s: string, w: string, i: int, j: int) {
    && 0 <= i < j <= |s| && w == s[i..j] && AllWord(lex, w)
    && (i == 0 || !lex.isWordRune(s[i - 1]))
    && (j == |s| || !lex.isWordRune(s[j]))
  }

  lemma RunBeforeSeparator(lex: Lexicon, cur: string, sep: char, rest: string, w: string, i: int, j: int)
    requires AllWord(lex, cur) && !lex.isWordRune(sep)
    requires IsRun(lex, cur + [sep] + rest, w, i, j) && i < |cur|
    ensures w == cur
  {
    var s := cur + [sep] + rest;
    assert s[|cur|] == sep;
    assert forall k :: 0 <= k < |cur| ==> s[k] == cur[k];
    assert forall k :: i <= k < j ==> s[k] == w[k - i];
    assert forall k :: i <= k < j ==> lex.isWordRune(s[k]);
    assert j <= |cur|;
    assert i == 0 && j == |cur|;
  }

  lemma RunAfterSeparator(lex: Lexicon, cur: string, sep: char, rest: string, w: string, i: int, j: int)
    requires !lex.isWordRune(sep)
    requires IsRun(lex, cur + [sep] + rest, w, i, j) && |cur| <= i
    ensures IsField(lex, rest, w)
  {
    var s, n := cur + [sep] + rest, |cur| + 1;
    assert s[i] == w[0];
    assert forall k :: n <= k < |s| ==> s[k] == rest[k - n];
    assert s[i..j] == rest[i - n..j - n];
    assert IsRun(lex, rest, w, i - n, j - n);
  }

  /** A separator after `cur` splits the runs into `cur` and those of the rest. */
  lemma RunsAroundSeparator(lex: Lexicon, cur: string, sep: char, rest: string, w: string)
    requires AllWord(lex, cur) && !lex.isWordRune(sep)
    ensures IsField(lex, cur + [sep] + rest, w) <==> (cur != [] && w == cur) || IsField(lex, rest, w)
  {
    var s, n := cur + [sep] + rest, |cur| + 1;
    if i, j :| IsRun(lex, s, w, i, j) {
      if i < |cur| {
        RunBeforeSeparator(lex, cur, sep, rest, w, i, j);
      } else {
        RunAfterSeparator(lex, cur, sep, rest, w, i, j);
      }
    }
    if cur != [] && w == cur {
      assert s[0..|cur|] == cur;
      assert IsRun(lex, s, w, 0, |cur|);
    }
    if i, j :| IsRun(lex, rest, w, i, j) {
      assert s[i + n..j + n] == rest[i..j];
      assert IsRun(lex, s, w, i + n, j + n);
    }
  }

  lemma {:induction false} ScanExact(lex: Lexicon, s: string, cur: string, w: string)
    requires AllWord(lex, cur)
    ensures w in Scan(lex, s, cur) <==> IsField(lex, cur + s, w)
    decreases |s|
  {
    if s == [] {
      assert cur + s == cur;
      if cur != [] && w == cur {
        assert cur[0..|cur|] == cur;
        assert IsRun(lex, cur, w, 0, |cur|);
      }
    } else if lex.isWordRune(s[0]) {
      assert cur + [s[0]] + s[1..] == cur + s;
      ScanExact(lex, s[1..], cur + [s[0]], w);
    } else {
      assert cur + [s[0]] + s[1..] == cur + s;
      assert [] + s[1..] == s[1..];
      ScanExact(lex, s[1..], [], w);
      RunsAroundSeparator(lex, cur, s[0], s[1..], w);
    }
  }

  /** The scan finds exactly the maximal runs. */
  lemma FieldsExact(lex: Lexicon, s: string, w: string)
    ensures w in Fields(lex, s) <==> IsField(lex, s, w)
  {
    ScanExact(lex, s, [], w);
    assert [] + s == s;
  }

  /** The splitting loop of `strings.FieldsFunc`: `start` is where the current field began. */
  method SplitFields(lex: Lexicon, phrase: string) returns (fields: seq<string>)
    ensures fields == Fields(lex, phrase)
  {
    fields := [];
    var start := -1;
    for end := 0 to |phrase|
      invariant -1 <= start < end || start == -1
      invariant fields + Scan(lex, phrase[end..], if start >= 0 then phrase[start..end] else []) == Fields(lex, phrase)
    {
      assert phrase[end..][0] == phrase[end] && phrase[end..][1..] == phrase[end + 1..];
      if !lex.isWordRune(phrase[end]) {
        if start >= 0 {
          fields := fields + [phrase[start..end]];
          start := -1;
        }
      } else if start < 0 {
        start := end;
        assert phrase[start..end + 1] == [] + [phrase[end]];
      } else {
        assert phrase[start..end + 1] == phrase[start..end] + [phrase[end]];
      }
    }
    assert phrase[|phrase|..] == [];
    if start >= 0 {
      fields := fields + [phrase[start..|phrase|]];
    }
  }

  /** The normal form of a phrase, as a set. */
  function NormSet(lex: Lexicon, phrase: string): set<string> {
    StemsOf(lex, Fields(lex, phrase))
  }

  function StemsOf(lex: Lexicon, fields: seq<string>): set<string> {
    set w | w in fields && !lex.isStop(lex.lower(w)) :: lex.stem(lex.lower(w))
  }

  /** What a normalised word is, without the scan: the stem of a maximal run that is no stop word. */
  lemma NormExact(lex: Lexicon, phrase: string, x: string)
    ensures x in NormSet(lex, phrase) <==>
            exists w :: IsField(lex, phrase, w) && !lex.isStop(lex.lower(w)) && x == lex.stem(lex.lower(w))
  {
    if x in NormSet(lex, phrase) {
      var w :| w in Fields(lex, phrase) && !lex.isStop(lex.lower(w)) && x == lex.stem(lex.lower(w));
      FieldsExact(lex, phrase, w);
    }
    if w :| IsField(lex, phrase, w) && !lex.isStop(lex.lower(w)) && x == lex.stem(lex.lower(w)) {
      FieldsExact(lex, phrase, w);
    }
  }

  /** `Norm`: the words come out once each, in the map's own order. */
  method Norm(lex: Lexicon, phrase: string) returns (r: seq<string>)
    ensures NoDup(r) && ToSet(r) == NormSet(lex, phrase)
  {
    var split := SplitFields(lex, phrase);
    var words: set<string> := {};
    for i := 0 to |split|
      invariant words == StemsOf(lex, split[..i])
    {
      assert split[..i + 1] == split[..i] + [split[i]];
      var w := lex.lower(split[i]);
      if lex.isStop(w) {
        continue;
      }
      words := words + {lex.stem(w)};
    }
    assert split[..|split|] == split;
    r := Collect(words);
  }

  /** The keys of a map, in an order nobody promises. */
  method Collect(words: set<string>) returns (r: seq<string>)
    ensures NoDup(r) && ToSet(r) == words
  {
    r := [];
    var left := words;
    while left != {}
      invariant left <= words && NoDup(r) && ToSet(r) == words - left
      decreases |left|
    {
      var w :| w in left;
      assert w !in ToSet(r);
      assert ToSet(r + [w]) == ToSet(r) + {w};
      r, left := r + [w], left - {w};
    }
  }

  lemma {:induction false} ScanConcat(lex: Lexicon, p: string, sep: string, q: string, cur: string)
    requires sep != [] && AllSeparators(lex, sep)
    ensures Scan(lex, p + sep + q, cur) == Scan(lex, p, cur) + Fields(lex, q)
    decreases |p|, |sep|
  {
    var s := p + sep + q;
    if p == [] {
      assert s[0] == sep[0] && s[1..] == sep[1..] + q;
      if sep[1..] == [] {
        assert s[1..] == q;
      } else {
        assert [] + sep[1..] + q == sep[1..] + q;
        ScanConcat(lex, [], sep[1..], q, []);
      }
    } else {
      assert s[0] == p[0] && s[1..] == p[1..] + sep + q;
      ScanConcat(lex, p[1..], sep, q, if lex.isWordRune(p[0]) then cur + [p[0]] else []);
    }
  }

  /** `Norm` turns separated concatenation into union. */
  lemma NormOfSeparated(lex: Lexicon, p: string, sep: string, q: string)
    requires sep != [] && AllSeparators(lex, sep)
    ensures NormSet(lex, p + sep + q) == NormSet(lex, p) + NormSet(lex, q)
  {
    ScanConcat(lex, p, sep, q, []);
    var all := Fields(lex, p) + Fields(lex, q);
    assert forall w :: w in all <==> w in Fields(lex, p) || w in Fields(lex, q);
  }
}
