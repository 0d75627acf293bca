/** The check that a source file carries the licence boilerplate. */
module Boilerplate {
  import opened Names

  // ---- strings ----

  /** `strings.Contains(s, sub)`. */
  predicate Contains(s: string, sub: string)
  {
    sub <= s || (s != "" && Contains(s[1..], sub))
  }

  /** `strings.Split(s, sep)` for a separator of one character. */
  function Split(s: string, sep: char): (r: seq<string>)
    ensures |r| > 0
  {
    if s == "" then [""]
    else
      var r := Split(s[1..], sep);
      if s[0] == sep then [""] + r else [[s[0]] + r[0]] + r[1..]
  }

  function Join(parts: seq<string>, sep: char): string
    requires |parts| > 0
  {
    if |parts| == 1 then parts[0] else parts[0] + [sep] + Join(parts[1..], sep)
  }

  /** `strings.ReplaceAll(s, old, by)`. */
  function ReplaceAll(s: string, old_: string, by_: string): string
    requires old_ != ""
  {
    if s == "" then ""
    else if old_ <= s then by_ + ReplaceAll(s[|old_|..], old_, by_)
    else [s[0]] + ReplaceAll(s[1..], old_, by_)
  }

  predicate IsDigit(c: char) { '0' <= c <= '9' }

  /** The expression `(20)[0-9][0-9]` matches somewhere. */
  predicate HasYear(w: string)
  {
    |w| >= 4 && ((w[0] == '2' && w[1] == '0' && IsDigit(w[2]) && IsDigit(w[3])) || HasYear(w[1..]))
  }

  /** `sub` stands at place `k` of `s`. */
  predicate StandsAt(s: string, sub: string, k: int) { 0 <= k <= |s| - |sub| && s[k..k + |sub|] == sub }

  lemma AtTheStart(s: string, sub: string)
    ensures StandsAt(s, sub, 0) <==> sub <= s
  {
    if |sub| <= |s| { assert s[0..0 + |sub|] == s[..|sub|]; }
  }

  lemma {:induction false} ContainsExactly(s: string, sub: string)
    ensures Contains(s, sub) <==> exists k :: StandsAt(s, sub, k)
  {
    AtTheStart(s, sub);
    if sub <= s {
    } else if s != "" {
      var t := s[1..];
      ContainsExactly(t, sub);
      if k :| StandsAt(s, sub, k) {
        assert t[k - 1..k - 1 + |sub|] == s[k..k + |sub|];
        assert StandsAt(t, sub, k - 1);
      }
      if k :| StandsAt(t, sub, k) {
        assert s[k + 1..k + 1 + |sub|] == t[k..k + |sub|];
        assert StandsAt(s, sub, k + 1);
      }
    } else {
      forall k ensures !StandsAt(s, sub, k) {}
    }
  }

  /** There is a year of this century at place `k`. */
  predicate YearAt(w: string, k: int)
  {
    0 <= k <= |w| - 4 && w[k] == '2' && w[k + 1] == '0' && '0' <= w[k + 2] <= '9' && '0' <= w[k + 3] <= '9'
  }

  lemma {:induction false} HasYearExactly(w: string)
    ensures HasYear(w) <==> exists k :: YearAt(w, k)
  {
    if |w| >= 4 {
      var t := w[1..];
      HasYearExactly(t);
      if k :| YearAt(t, k) { assert YearAt(w, k + 1); }
      if k :| YearAt(w, k) {
        if k > 0 { assert YearAt(t, k - 1); }
      }
      if HasYear(w) && !HasYear(t) { assert YearAt(w, 0); }
    }
  }

  // ---- the boilerplate ----

  const START := "Copyright "
  const YEAR := "YEAR"
  const AUTHORS := " The Kubernetes Authors."
  const END := "limitations under the License."

  const LICENSED := "Licensed under the Apache " + "License, Version 2.0 " + "(the \"License\");"
  const COMPLIANCE := "you may not use this " + "file except in compliance " + "with the License."
  const OBTAIN := "You may obtain " + "a copy of the " + "License at"
  const ADDRESS := "    http://" + "www.apache.org/" + "licenses/LICENSE-2.0"
  const UNLESS := "Unless required by " + "applicable law or agreed " + "to in writing, software"
  const BASIS := "distributed under the License " + "is distributed on an " + "\"AS IS\" BASIS,"
  const WARRANTIES := "WITHOUT WARRANTIES OR CONDITIONS OF AN" + "Y KIND, " + "either express or implied."
  const SEE := "See the License for " + "the specific language " + "governing permissions and"

  function Template(): (t: seq<string>)
    ensures |t| == 13
  {
    hide LICENSED, COMPLIANCE, OBTAIN, ADDRESS, UNLESS, BASIS, WARRANTIES, SEE, START, YEAR, AUTHORS, END;
    [ START + YEAR + AUTHORS,
      "", LICENSED, COMPLIANCE, OBTAIN,
      "", ADDRESS,
      "", UNLESS, BASIS, WARRANTIES, SEE, END ]
  }

  /** Strips a comment mark at the very beginning of the line, and one space after it. */
  function TrimLeadingComment(line: string, c: string): string
  {
    if c <= line then
      if |line| == |c| then ""
      else if line[|c|] == ' ' then line[|c| + 1..]
      else line[|c|..]
    else line
  }

  function Trimmed(line: string): string
  {
    TrimLeadingComment(TrimLeadingComment(line, "//"), "#")
  }

  /** The boilerplate `t` with the year filled in. */
  function Filled(t: seq<string>, year: string): (r: seq<string>)
    requires |t| == 13
    ensures |r| == 13
  {
    t[0 := START + year + AUTHORS]
  }

  predicate HasStart(line: string) { Contains(Trimmed(line), START) }

  /** The first line, trimmed, that contains `Copyright `. */
  ghost predicate StartsAt(lines: seq<string>, k: nat)
  {
    k < |lines| && HasStart(lines[k]) && forall j :: 0 <= j < k ==> !HasStart(lines[j])
  }

  function SecondWord(line: string): string
  {
    var words := Split(line, ' ');
    if |words| > 1 then words[1] else ""
  }

  predicate CopyrightOk(line: string)
  {
    |Split(line, ' ')| == 5 && HasYear(SecondWord(line))
  }

  /** The `n` lines from `k` on are the first lines of the boilerplate for the year in line `k`. */
  ghost predicate Agrees(t: seq<string>, lines: seq<string>, k: nat, n: nat)
    requires |t| == 13 && k < |lines|
  {
    && k + n <= |lines| && n <= 13
    && (n > 0 ==> HasYear(SecondWord(Trimmed(lines[k]))))
    && forall j :: 0 <= j < n ==> Trimmed(lines[k + j]) == Filled(t, SecondWord(Trimmed(lines[k])))[j]
  }

  datatype Failure =
    | CopyrightWords | CopyrightYear
    | Mismatch(number: nat, expected: string, got: string)
    | MissingStart | MissingLines

  ghost predicate Accepted(t: seq<string>, lines: seq<string>)
    requires |t| == 13
  {
    exists k :: StartsAt(lines, k) && Agrees(t, lines, k, 13)
  }

  /** After `n` lines that agree, the next one is not right: this is why. */
  ghost predicate Wrong(t: seq<string>, lines: seq<string>, k: nat, n: nat, f: Failure)
    requires |t| == 13
  {
    && StartsAt(lines, k) && n < 13 && k + n < |lines| && Agrees(t, lines, k, n)
    && var line := Trimmed(lines[k + n]);
       match f
       case CopyrightWords => Contains(line, START) && |Split(line, ' ')| != 5
       case CopyrightYear => Contains(line, START) && |Split(line, ' ')| == 5 && !HasYear(SecondWord(line))
       case Mismatch(number, expected, got) =>
         && (Contains(line, START) ==> CopyrightOk(line))
         && number == n + 1 && got == line && got != expected && expected == Filled(t, SecondWord(Trimmed(lines[k])))[n]
       case _ => false
  }

  /** What the check says of these lines, and why. */
  ghost predicate Explains(t: seq<string>, lines: seq<string>, r: Option<Failure>)
    requires |t| == 13
  {
    match r
    case None => Accepted(t, lines)
    case Some(MissingStart) => forall j :: 0 <= j < |lines| ==> !HasStart(lines[j])
    case Some(MissingLines) => exists k :: StartsAt(lines, k) && |lines| - k < 13 && Agrees(t, lines, k, |lines| - k)
    case Some(f) => exists k, n :: Wrong(t, lines, k, n, f)
  }

  // ---- the lines of the template ----

  lemma PrefixHas(sub: string, s: string, c: char)
    requires c in sub && sub <= s
    ensures c in s
  {
    var i :| 0 <= i < |sub| && sub[i] == c;
    assert s[i] == c;
  }

  lemma {:induction false} NotContained(s: string, sub: string, c: char)
    requires c in sub && c !in s
    ensures !Contains(s, sub)
  {
    if s == "" {
    } else {
      assert forall x :: x in s[1..] ==> x in s;
      NotContained(s[1..], sub, c);
      if sub <= s { PrefixHas(sub, s, c); }
    }
  }

  lemma {:induction false} NothingReplaced(s: string, old_: string, by_: string, c: char)
    requires c in old_ && c !in s
    ensures ReplaceAll(s, old_, by_) == s
  {
    if s == "" {
    } else {
      assert forall x :: x in s[1..] ==> x in s;
      NothingReplaced(s[1..], old_, by_, c);
      assert s == [s[0]] + s[1..];
      if old_ <= s { PrefixHas(old_, s, c); }
    }
  }

  /** Text before the first letter of what is replaced stays as it is. */
  lemma {:induction false} ReplaceAfter(a: string, s: string, old_: string, by_: string)
    requires old_ != "" && old_[0] !in a
    ensures ReplaceAll(a + s, old_, by_) == a + ReplaceAll(s, old_, by_)
  {
    if a == "" {
      assert a + s == s;
    } else {
      assert (a + s)[1..] == a[1..] + s;
      assert a[0] in a;
      ReplaceAfter(a[1..], s, old_, by_);
    }
  }

  /** A line that neither looks like a copyright line nor has a year to fill in nor starts like a comment. */
  ghost predicate Plain(l: string)
  {
    && !Contains(l, START)
    && (forall w :: ReplaceAll(l, YEAR, w) == l)
    && (l == "" || (l[0] != '#' && l[0] != '/'))
  }

  /** A plain line that the check does not take for the last one. */
  ghost predicate Inner(l: string) { Plain(l) && !(END <= l) }

  lemma PlainLine(a: string, b: string, c: string, x: char, y: char)
    requires x in START && y in YEAR && a != "" && a[0] != '#' && a[0] != '/'
    requires forall i :: 0 <= i < |a| ==> a[i] != x && a[i] != y
    requires forall i :: 0 <= i < |b| ==> b[i] != x && b[i] != y
    requires forall i :: 0 <= i < |c| ==> c[i] != x && c[i] != y
    ensures Plain(a + b + c) && (a[0] != 'l' ==> !(END <= a + b + c))
  {
    var l := a + b + c;
    assert l[0] == a[0] && END[0] == 'l';
    NotContained(l, START, x);
    forall w ensures ReplaceAll(l, YEAR, w) == l { NothingReplaced(l, YEAR, w, y); }
  }

  lemma PlainLicensed()
    ensures Inner(LICENSED)
  {
    PlainLine("Licensed under the Apache ", "License, Version 2.0 ", "(the \"License\");", 'C', 'Y');
  }

  lemma PlainCompliance()
    ensures Inner(COMPLIANCE)
  {
    PlainLine("you may not use this ", "file except in compliance ", "with the License.", 'C', 'Y');
  }

  lemma PlainObtain()
    ensures Inner(OBTAIN)
  {
    PlainLine("You may obtain ", "a copy of the ", "License at", 'C', 'E');
  }

  lemma PlainAddress()
    ensures Inner(ADDRESS)
  {
    PlainLine("    http://", "www.apache.org/", "licenses/LICENSE-2.0", 'y', 'Y');
  }

  lemma PlainUnless()
    ensures Inner(UNLESS)
  {
    PlainLine("Unless required by ", "applicable law or agreed ", "to in writing, software", 'C', 'Y');
  }

  lemma PlainBasis()
    ensures Inner(BASIS)
  {
    PlainLine("distributed under the License ", "is distributed on an ", "\"AS IS\" BASIS,", 'C', 'Y');
  }

  lemma PlainSee()
    ensures Inner(SEE)
  {
    PlainLine("See the License for ", "the specific language ", "governing permissions and", 'C', 'Y');
  }

  lemma PlainEnd()
    ensures Plain(END)
  {
    PlainLine(END, "", "", 'C', 'Y');
    assert END + "" + "" == END;
  }

  /** The same for a line with one `Y` in it, and no `E` after that. */
  lemma PlainLineWithY(a: string, b: string, c: string, x: char)
    requires x in START && a != "" && a[0] != '#' && a[0] != '/' && a[0] != 'l'
    requires |b| > 1 && b[0] == 'Y' && b[1] != 'E' && b[0] != x
    requires forall i :: 0 <= i < |a| ==> a[i] != x && a[i] != 'Y'
    requires forall i :: 1 <= i < |b| ==> b[i] != x && b[i] != 'Y'
    requires forall i :: 0 <= i < |c| ==> c[i] != x && c[i] != 'Y'
    ensures Inner(a + b + c)
  {
    var l := a + b + c;
    assert l[0] == a[0] && END[0] == 'l';
    NotContained(l, START, x);
    assert l == a + (b + c);
    forall w ensures ReplaceAll(l, YEAR, w) == l {
      ReplaceAfter(a, b + c, YEAR, w);
      NothingReplaced((b + c)[1..], YEAR, w, 'Y');
      assert (b + c)[0] == b[0] && (b + c)[1] == b[1];
      assert b + c == [(b + c)[0]] + (b + c)[1..];
    }
  }

  lemma PlainWarranties()
    ensures Inner(WARRANTIES)
  {
    PlainLineWithY("WITHOUT WARRANTIES OR CONDITIONS OF AN", "Y KIND, ", "either express or implied.", 'g');
  }

  /** Everything that the check relies on in its template. */
  ghost predicate WellFormed(t: seq<string>)
  {
    && |t| == 13
    && t[0] == START + YEAR + AUTHORS && t[12] == END
    && (forall j :: 1 <= j < 12 ==> Inner(t[j])) && Plain(END)
  }

  lemma PlainEmpty()
    ensures Inner("")
  {
  }

  lemma TemplateIsWellFormed()
    ensures WellFormed(Template())
  {
    hide LICENSED, COMPLIANCE, OBTAIN, ADDRESS, UNLESS, BASIS, WARRANTIES, SEE, START, YEAR, AUTHORS, END, Inner, Plain;
    PlainEmpty();
    PlainLicensed();
    PlainCompliance();
    PlainObtain();
    PlainAddress();
    PlainUnless();
    PlainBasis();
    PlainWarranties();
    PlainSee();
    PlainEnd();
  }

  // ---- the copyright line ----

  lemma {:induction false} ReplaceMiddle(a: string, m: string, b: string, w: string)
    requires m != "" && m[0] !in a && m[0] !in b
    ensures ReplaceAll(a + m + b, m, w) == a + w + b
  {
    assert a + m + b == a + (m + b);
    ReplaceAfter(a, m + b, m, w);
    assert (m + b)[|m|..] == b;
    NothingReplaced(b, m, w, m[0]);
    assert a + (w + b) == a + w + b;
  }

  lemma {:induction false} YearFilledIn(w: string)
    ensures ReplaceAll(START + YEAR + AUTHORS, YEAR, w) == START + w + AUTHORS
  {
    hide ReplaceAll;
    ReplaceMiddle(START, YEAR, AUTHORS, w);
  }

  lemma {:induction false} SplitWord(a: string, s: string, sep: char)
    requires sep !in a
    ensures Split(a, sep) == [a]
    ensures Split(a + [sep] + s, sep) == [a] + Split(s, sep)
  {
    if a == "" {
      assert (a + [sep] + s)[1..] == s;
    } else {
      assert forall x :: x in a[1..] ==> x in a;
      assert (a + [sep] + s)[1..] == a[1..] + [sep] + s;
      assert a[0] in a;
      SplitWord(a[1..], s, sep);
      assert [a[0]] + a[1..] == a;
    }
  }

  /** A word is what `Split` returns: it holds no separator. */
  lemma {:induction false} SplitParts(s: string, sep: char, k: nat)
    requires k < |Split(s, sep)|
    ensures sep !in Split(s, sep)[k]
  {
    if s != "" {
      var r := Split(s[1..], sep);
      if s[0] == sep {
        if k > 0 { SplitParts(s[1..], sep, k - 1); }
      } else {
        SplitParts(s[1..], sep, k);
      }
    }
  }

  /** Splitting at a character undoes joining with it. */
  lemma {:induction false} SplitJoin(parts: seq<string>, sep: char)
    requires |parts| > 0 && forall k :: 0 <= k < |parts| ==> sep !in parts[k]
    ensures Split(Join(parts, sep), sep) == parts
  {
    if |parts| == 1 {
      SplitWord(parts[0], "", sep);
    } else {
      SplitJoin(parts[1..], sep);
      SplitWord(parts[0], Join(parts[1..], sep), sep);
    }
  }

  /** Joining with a character undoes splitting at it. */
  lemma {:induction false} JoinSplit(s: string, sep: char)
    ensures Join(Split(s, sep), sep) == s
  {
    if s != "" {
      JoinSplit(s[1..], sep);
      var r := Split(s[1..], sep);
      if s[0] == sep {
        assert ([""] + r)[1..] == r;
      } else if |r| > 1 {
        assert ([[s[0]] + r[0]] + r[1..])[1..] == r[1..];
      }
    }
  }

  lemma Regroup(a: string, b: string, c: string, d: string, e: string, s: string)
    ensures a + s + b + (s + c + s + d + s + e) == a + s + (b + s + (c + s + (d + s + e)))
  {
    assert s + c + s + d + s + e == s + (c + s + (d + s + e));
  }

  lemma {:induction false} FiveWords(a: string, b: string, c: string, d: string, e: string, sep: char)
    requires sep !in a && sep !in b && sep !in c && sep !in d && sep !in e
    ensures Split(a + [sep] + b + ([sep] + c + [sep] + d + [sep] + e), sep) == [a, b, c, d, e]
  {
    hide Split;
    Regroup(a, b, c, d, e, [sep]);
    var de := d + [sep] + e;
    var cde := c + [sep] + de;
    var bcde := b + [sep] + cde;
    SplitWord(e, "", sep);
    SplitWord(d, e, sep);
    assert Split(de, sep) == [d, e];
    SplitWord(c, de, sep);
    assert Split(cde, sep) == [c, d, e];
    SplitWord(b, cde, sep);
    assert Split(bcde, sep) == [b, c, d, e];
    SplitWord(a, bcde, sep);
  }

  lemma WordsOfStart()
    ensures START == "Copyright" + [' '] && ' ' !in "Copyright"
  {
  }

  lemma WordsOfAuthors()
    ensures AUTHORS == [' '] + "The" + [' '] + "Kubernetes" + [' '] + "Authors."
  {
  }

  lemma NoSpaces()
    ensures ' ' !in "The" && ' ' !in "Kubernetes" && ' ' !in "Authors."
  {
  }

  lemma {:induction false} CopyrightWordsOf(w: string)
    requires ' ' !in w
    ensures Split(START + w + AUTHORS, ' ') == ["Copyright", w, "The", "Kubernetes", "Authors."]
  {
    hide START, AUTHORS, Split;
    WordsOfStart();
    WordsOfAuthors();
    NoSpaces();
    FiveWords("Copyright", w, "The", "Kubernetes", "Authors.", ' ');
  }

  // ---- the check ----

  /** A line that looks like a copyright line does not agree with any line of the template but the first. */
  lemma {:induction false} LateStart(t: seq<string>, n: nat, line: string)
    requires WellFormed(t) && 1 <= n < 13 && Contains(line, START)
    ensures line != t[n]
  {
    hide START, AUTHORS, YEAR, END, Contains, ReplaceAll;
    assert 1 <= n < 12 ==> Inner(t[n]);
    assert Plain(t[n]);
  }

  lemma {:induction false} YearPutIn(t: seq<string>, n: nat, w: string)
    requires WellFormed(t) && n < 13
    ensures ReplaceAll(t[n], YEAR, w) == Filled(t, w)[n]
  {
    hide START, YEAR, AUTHORS, END, ReplaceAll, Contains;
    if n == 0 { YearFilledIn(w); }
    assert Plain(t[12]);
    assert 1 <= n < 12 ==> Inner(t[n]);
  }

  lemma LastLine(t: seq<string>, n: nat, w: string)
    requires WellFormed(t) && n < 13
    ensures END <= Filled(t, w)[n] <==> n == 12
  {
    hide AUTHORS, YEAR, Plain;
    if n == 0 {
      assert Filled(t, w)[n][0] == START[0] == 'C' && END[0] == 'l';
    }
    assert 1 <= n < 12 ==> Inner(t[n]);
  }

  lemma TemplateWords()
    ensures YEAR != "" && |Split(START + YEAR + AUTHORS, ' ')| == 5
  {
    hide START, AUTHORS, Split;
    CopyrightWordsOf(YEAR);
  }

  /**
   * `contents` passes exactly when the first line with a copyright begins the whole boilerplate; otherwise, why it
   * fails.
   */
  method VerifyBoilerplate(contents: string) returns (r: Option<Failure>)
    ensures Explains(Template(), Split(contents, '\n'), r)
  {
    hide Template, Contains, Split, TrimLeadingComment, ReplaceAll, HasYear, START, YEAR, AUTHORS, END, Plain, Inner;
    TemplateIsWellFormed();
    TemplateWords();
    var boilerPlate := Template();
    var idx := 0;
    var foundBoilerplateStart := false;
    var lines := Split(contents, '\n');
    ghost var k := 0;
    for i := 0 to |lines|
      invariant idx < 13
      invariant !foundBoilerplateStart ==> idx == 0 && forall j :: 0 <= j < i ==> !HasStart(lines[j])
      invariant foundBoilerplateStart ==>
          StartsAt(lines, k) && i == k + idx && Agrees(boilerPlate, lines, k, idx) && idx > 0
    {
      var line := TrimLeadingComment(lines[i], "//");
      line := TrimLeadingComment(line, "#");
      assert line == Trimmed(lines[i]);
      var bpLine := boilerPlate[idx];
      if Contains(line, START) {
        if !foundBoilerplateStart { k := i; }
        foundBoilerplateStart := true;
        assert StartsAt(lines, k) && i == k + idx && Agrees(boilerPlate, lines, k, idx);
        var yearWords := Split(line, ' ');
        var expectedLen := |Split(boilerPlate[0], ' ')|;
        if |yearWords| != expectedLen {
          assert Wrong(boilerPlate, lines, k, idx, CopyrightWords);
          return Some(CopyrightWords);
        }
        if !HasYear(yearWords[1]) {
          assert Wrong(boilerPlate, lines, k, idx, CopyrightYear);
          return Some(CopyrightYear);
        }
        bpLine := ReplaceAll(bpLine, YEAR, yearWords[1]);
        YearPutIn(boilerPlate, idx, yearWords[1]);
        if idx > 0 { LateStart(boilerPlate, idx, line); }
      }
      if foundBoilerplateStart {
        if line != bpLine {
          assert Wrong(boilerPlate, lines, k, idx, Mismatch(idx + 1, bpLine, line));
          return Some(Mismatch(idx + 1, bpLine, line));
        }
        LastLine(boilerPlate, idx, SecondWord(Trimmed(lines[k])));
        idx := idx + 1;
        assert Agrees(boilerPlate, lines, k, idx);
        if END <= line {
          break;
        }
      }
    }
    if !foundBoilerplateStart {
      return Some(MissingStart);
    }
    if idx < |boilerPlate| {
      return Some(MissingLines);
    }
    return None;
  }

  // ---- there is only one verdict ----

  lemma SecondWordHasNoSpace(line: string)
    ensures ' ' !in SecondWord(line)
  {
    if |Split(line, ' ')| > 1 { SplitParts(line, ' ', 1); }
  }

  lemma OneStart(lines: seq<string>, k: nat, m: nat)
    requires StartsAt(lines, k) && StartsAt(lines, m)
    ensures k == m
  {
  }

  /** A line that is wrong does not agree. */
  lemma WrongDisagrees(t: seq<string>, lines: seq<string>, k: nat, n: nat, f: Failure)
    requires WellFormed(t) && Wrong(t, lines, k, n, f)
    ensures !Agrees(t, lines, k, n + 1)
  {
    hide START, AUTHORS, YEAR, END, Contains, Split, HasYear, Trimmed, SecondWord, Plain, Inner;
    var line, w := Trimmed(lines[k + n]), SecondWord(Trimmed(lines[k]));
    assert Agrees(t, lines, k, n + 1) ==> line == Filled(t, w)[n];
    if n > 0 {
      if Contains(line, START) { LateStart(t, n, line); }
    } else {
      SecondWordHasNoSpace(line);
      CopyrightWordsOf(w);
    }
  }

  /** Of two places where the check can stop, the later one has more lines that agree. */
  lemma SameWrong(t: seq<string>, lines: seq<string>, k: nat, n: nat, f: Failure, l: nat, m: nat, g: Failure)
    requires WellFormed(t) && Wrong(t, lines, k, n, f) && Wrong(t, lines, l, m, g)
    ensures f == g
  {
    hide WellFormed, HasStart, Contains, Split, HasYear, Trimmed, SecondWord, Filled;
    OneStart(lines, k, l);
    WrongDisagrees(t, lines, k, n, f);
    WrongDisagrees(t, lines, l, m, g);
    assert n == m;
  }

  lemma WrongIsNotRight(t: seq<string>, lines: seq<string>, k: nat, n: nat, f: Failure)
    requires WellFormed(t) && Wrong(t, lines, k, n, f)
    ensures !Explains(t, lines, None) && !Explains(t, lines, Some(MissingStart))
        && !Explains(t, lines, Some(MissingLines))
  {
    hide WellFormed, HasStart, Contains, Split, HasYear, Trimmed, SecondWord, Filled;
    WrongDisagrees(t, lines, k, n, f);
    assert forall l :: StartsAt(lines, l) ==> l == k;
  }

  lemma RightIsNotMissing(t: seq<string>, lines: seq<string>)
    requires |t| == 13
    ensures Explains(t, lines, None) ==>
        !Explains(t, lines, Some(MissingStart)) && !Explains(t, lines, Some(MissingLines))
    ensures Explains(t, lines, Some(MissingStart)) ==> !Explains(t, lines, Some(MissingLines))
  {
    hide HasStart;
    forall k, l | StartsAt(lines, k) && StartsAt(lines, l) ensures k == l { OneStart(lines, k, l); }
  }

  /** What the check returns is settled by its postcondition. */
  lemma VerdictIsUnique(t: seq<string>, lines: seq<string>, r: Option<Failure>, q: Option<Failure>)
    requires WellFormed(t) && Explains(t, lines, r) && Explains(t, lines, q)
    ensures r == q
  {
    hide Inner, Plain, START, YEAR, AUTHORS, END, Wrong, Accepted, Agrees, StartsAt;
    RightIsNotMissing(t, lines);
    if k, n, f :| Wrong(t, lines, k, n, f) {
      WrongIsNotRight(t, lines, k, n, f);
      forall l, m, g | Wrong(t, lines, l, m, g) ensures f == g { SameWrong(t, lines, k, n, f, l, m, g); }
    }
  }

  // ---- what passes ----

  /** From line `k` on, the boilerplate for `w`, a word with `20dd` in it. */
  ghost predicate Carries(t: seq<string>, lines: seq<string>, k: nat, w: string)
    requires |t| == 13
  {
    && ' ' !in w && HasYear(w) && k + 13 <= |lines|
    && forall j :: 0 <= j < 13 ==> Trimmed(lines[k + j]) == Filled(t, w)[j]
  }

  /** A file passes exactly when its first copyright line begins the boilerplate for some year. */
  lemma AcceptedExactly(t: seq<string>, lines: seq<string>)
    requires WellFormed(t)
    ensures Accepted(t, lines) <==> exists k: nat, w :: StartsAt(lines, k) && Carries(t, lines, k, w)
  {
    hide START, AUTHORS, YEAR, END, Contains, Split, HasYear, Trimmed, Plain, Inner;
    if k: nat :| StartsAt(lines, k) && Agrees(t, lines, k, 13) {
      SecondWordHasNoSpace(Trimmed(lines[k]));
      assert Carries(t, lines, k, SecondWord(Trimmed(lines[k])));
    }
    if k: nat, w :| StartsAt(lines, k) && Carries(t, lines, k, w) {
      assert Trimmed(lines[k + 0]) == Filled(t, w)[0];
      CopyrightWordsOf(w);
      assert SecondWord(Trimmed(lines[k])) == w;
      assert Agrees(t, lines, k, 13);
    }
  }

  /**
   * Stripping a mark gives `l` exactly for a line without the mark, or with it and a space, or with it and no space to
   * take away.
   */
  lemma TrimExactly(line: string, c: string, l: string)
    ensures TrimLeadingComment(line, c) == l <==>
              || (!(c <= line) && line == l)
              || line == c + " " + l
              || (line == c + l && (l == "" || l[0] != ' '))
  {
    if c <= line {
      assert line == c + line[|c|..];
      if |line| > |c| && line[|c|] == ' ' { assert line == c + " " + line[|c| + 1..]; }
    }
    if line == c + " " + l { assert line[|c| + 1..] == l; }
    if line == c + l { assert line[|c|..] == l; }
  }

  /** Both marks are stripped, but only in this order. */
  lemma BothMarks(l: string)
    requires l == "" || l[0] != ' '
    ensures Trimmed("//#" + l) == l && Trimmed("#//" + l) == "//" + l
  {
    hide TrimLeadingComment;
    var a, c := "//#" + l, "#//" + l;
    assert a == "//" + ("#" + l) && c == "#" + ("//" + l);
    TrimExactly(a, "//", "#" + l);
    TrimExactly("#" + l, "#", l);
    assert c[0] == '#' && "//"[0] == '/';
    TrimExactly(c, "//", c);
    TrimExactly(c, "#", "//" + l);
  }

  /**
   * The ways of writing a line of text in a file: as it is, or after one of the two comment marks, with or without a
   * space.
   */
  predicate Renders(line: string, l: string)
  {
    || line == l
    || line == "//" + " " + l || line == "#" + " " + l
    || ((l == "" || l[0] != ' ') && (line == "//" + l || line == "#" + l))
  }

  lemma RenderedIsTrimmed(line: string, l: string)
    requires Renders(line, l) && (l == "" || (l[0] != '#' && l[0] != '/'))
    ensures Trimmed(line) == l
  {
    hide TrimLeadingComment;
    assert "#"[0] == '#' && "//"[0] == '/';
    assert !("#" <= l) && !("//" <= l);
    assert "#" <= line ==> line[0] == '#';
    TrimExactly(line, "//", l);
    TrimExactly(l, "#", l);
    TrimExactly(line, "#", l);
    TrimExactly(line, "//", line);
  }

  /** Every rendering of the boilerplate passes, whatever follows it, if no line before it contains `Copyright `. */
  lemma {:induction false} RenderingsPass(
      t: seq<string>, before: seq<string>, rendered: seq<string>, after: seq<string>, w: string)
    requires WellFormed(t) && |rendered| == 13 && forall j :: 0 <= j < 13 ==> Renders(rendered[j], Filled(t, w)[j])
    requires ' ' !in w && HasYear(w)
    requires forall j :: 0 <= j < |before| ==> !HasStart(before[j])
    requires forall j :: 0 <= j < |before + rendered + after| ==> '\n' !in (before + rendered + after)[j]
    ensures Explains(t, Split(Join(before + rendered + after, '\n'), '\n'), None)
  {
    hide AUTHORS, YEAR, END, Split, HasYear, Renders, Trimmed;
    var lines, k := before + rendered + after, |before|;
    SplitJoin(lines, '\n');
    forall j | 0 <= j < 13 ensures Trimmed(lines[k + j]) == Filled(t, w)[j] {
      assert 1 <= j < 12 ==> Inner(t[j]);
      assert j == 0 ==> Filled(t, w)[j][0] == START[0] == 'C';
      RenderedIsTrimmed(lines[k + j], Filled(t, w)[j]);
    }
    assert Carries(t, lines, k, w);
    assert START <= Filled(t, w)[0] by { assert Filled(t, w)[0] == START + (w + AUTHORS); }
    assert StartsAt(lines, k) by { assert Trimmed(lines[k + 0]) == Filled(t, w)[0]; }
    AcceptedExactly(t, lines);
  }

  // ---- which files are checked ----

  const SUPPORTED := [".go", ".py", ".sh"]

  function LastIndex(s: string, c: char): (i: int)
    ensures -1 <= i < |s|
    ensures i >= 0 ==> s[i] == c
    ensures forall j :: i < j < |s| ==> s[j] != c
  {
    if s == "" then -1
    else if s[|s| - 1] == c then |s| - 1
    else LastIndex(s[..|s| - 1], c)
  }

  predicate EndsWith(s: string, suffix: string)
  {
    |suffix| <= |s| && s[|s| - |suffix|..] == suffix
  }

  lemma {:induction false} ExtensionIsSuffix(s: string, e: string)
    requires |e| == 3 && e[0] == '.' && e[1] != '.' && e[2] != '.'
    ensures EndsWith(s, e) <==> LastIndex(s, '.') >= 0 && s[LastIndex(s, '.')..] == e
  {
    var i := LastIndex(s, '.');
    if EndsWith(s, e) {
      assert s[|s| - 3..][0] == s[|s| - 3] && s[|s| - 3..][1] == s[|s| - 2] && s[|s| - 3..][2] == s[|s| - 1];
    }
    if i >= 0 && s[i..] == e { assert |s[i..]| == 3; }
  }

  /** A file is checked exactly when its name ends in a supported extension. */
  method IsSupportedFileExtension(filePath: string) returns (supported: bool)
    ensures supported <==> EndsWith(filePath, ".go") || EndsWith(filePath, ".py") || EndsWith(filePath, ".sh")
  {
    ExtensionIsSuffix(filePath, ".go");
    ExtensionIsSuffix(filePath, ".py");
    ExtensionIsSuffix(filePath, ".sh");
    var idx := LastIndex(filePath, '.');
    if idx == -1 {
      return false;
    }
    var ext := filePath[idx..];
    for i := 0 to |SUPPORTED|
      invariant forall j :: 0 <= j < i ==> SUPPORTED[j] != ext
    {
      if SUPPORTED[i] == ext {
        return true;
      }
    }
    assert SUPPORTED[0] == ".go" && SUPPORTED[1] == ".py" && SUPPORTED[2] == ".sh";
    return false;
  }
}
