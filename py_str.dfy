/** The `str` operations the pipelines use, on ASCII text: `strip`, `lower`,
    `split`, `' '.join`, `capitalize`, `title`, `startswith` and the
    regular-expression substitution that deletes every non-digit.  Characters
    outside ASCII are carried through unchanged and are never whitespace,
    digits or letters here. */
module PyStr {

  /** `str.isspace()` on ASCII: tab, line feed, vertical tab, form feed,
      carriage return, the four separators 0x1C-0x1F, and the space. */
  predicate IsSpace(c: char)
  {
    9 <= c as int <= 13 || 28 <= c as int <= 32
  }

  /** What the class `\d` matches, restricted to ASCII. */
  predicate IsDigit(c: char)
  {
    '0' <= c <= '9'
  }

  predicate IsUpper(c: char)
  {
    'A' <= c <= 'Z'
  }

  predicate IsLower(c: char)
  {
    'a' <= c <= 'z'
  }

  /** A cased character: `title` tracks whether the previous one was cased. */
  predicate IsLetter(c: char)
  {
    IsUpper(c) || IsLower(c)
  }

  function LowerChar(c: char): char
  {
    if IsUpper(c) then (c as int + 32) as char else c
  }

  function UpperChar(c: char): char
  {
    if IsLower(c) then (c as int - 32) as char else c
  }

  lemma CaseMapping(c: char)
    ensures IsSpace(LowerChar(c)) == IsSpace(c) && IsSpace(UpperChar(c)) == IsSpace(c)
    ensures IsLetter(LowerChar(c)) == IsLetter(c) && IsLetter(UpperChar(c)) == IsLetter(c)
    ensures !IsUpper(LowerChar(c)) && !IsLower(UpperChar(c))
    ensures LowerChar(LowerChar(c)) == LowerChar(c) && UpperChar(UpperChar(c)) == UpperChar(c)
    ensures LowerChar(UpperChar(c)) == LowerChar(c)
  {
  }

  predicate AllDigits(s: string)
  {
    forall i :: 0 <= i < |s| ==> IsDigit(s[i])
  }

  predicate IsLowerCase(s: string)
  {
    forall i :: 0 <= i < |s| ==> !IsUpper(s[i])
  }

  /** `s.startswith(p)`. */
  predicate StartsWith(s: string, p: string)
  {
    |p| <= |s| && s[..|p|] == p
  }

  /** `s.lower()`. */
  function Lower(s: string): string
  {
    seq(|s|, i requires 0 <= i < |s| => LowerChar(s[i]))
  }

  lemma LowerFacts(s: string)
    ensures |Lower(s)| == |s| && IsLowerCase(Lower(s))
    ensures Lower(Lower(s)) == Lower(s)
    ensures IsLowerCase(s) ==> Lower(s) == s
  {
    forall i | 0 <= i < |s| {
      CaseMapping(s[i]);
    }
  }

  /** No whitespace at either end: what `strip` returns. */
  predicate Unpadded(s: string)
  {
    s == [] || (!IsSpace(s[0]) && !IsSpace(s[|s| - 1]))
  }

  /** `s.lstrip()`: drops leading whitespace and nothing else. */
  function TrimLeft(s: string): (r: string)
    ensures |r| <= |s| && r == s[|s| - |r|..]
    ensures r == [] || !IsSpace(r[0])
    ensures forall i :: 0 <= i < |s| - |r| ==> IsSpace(s[i])
  {
    if s != [] && IsSpace(s[0]) then TrimLeft(s[1..]) else s
  }

  /** `s.rstrip()`: drops trailing whitespace and nothing else. */
  function TrimRight(s: string): (r: string)
    ensures |r| <= |s| && r == s[..|r|]
    ensures r == [] || !IsSpace(r[|r| - 1])
    ensures forall i :: |r| <= i < |s| ==> IsSpace(s[i])
  {
    if s != [] && IsSpace(s[|s| - 1]) then TrimRight(s[..|s| - 1]) else s
  }

  /** `s.strip()`. */
  function Strip(s: string): (r: string)
    ensures Unpadded(r) && |r| <= |s|
  {
    TrimRight(TrimLeft(s))
  }

  /** `strip` removes exactly the whitespace around a padded text. */
  lemma StripBetween(pre: string, w: string, post: string)
    requires forall i :: 0 <= i < |pre| ==> IsSpace(pre[i])
    requires forall i :: 0 <= i < |post| ==> IsSpace(post[i])
    requires w != [] && Unpadded(w)
    ensures Strip(pre + w + post) == w
  {
    var s := pre + w + post;
    assert s[|pre|] == w[0];
    var l := TrimLeft(s);
    assert l == w + post;
    assert l[|w| - 1] == w[|w| - 1];
  }

  /** Putting a lower-case prefix without surrounding whitespace in front
      of an unpadded lower-case text. */
  lemma PrependLower(p: string, w: string)
    requires IsLowerCase(p) && IsLowerCase(w) && p != [] && Unpadded(p) && Unpadded(w)
    ensures IsLowerCase(p + w) && Unpadded(p + w) && StartsWith(p + w, p)
  {
    var r := p + w;
    forall i | 0 <= i < |r| ensures !IsUpper(r[i]) {
      if i < |p| {
        assert r[i] == p[i];
      } else {
        assert r[i] == w[i - |p|];
      }
    }
    assert r[..|p|] == p;
    assert r[0] == p[0];
    if w != [] {
      assert r[|r| - 1] == w[|w| - 1];
    }
  }

  lemma StripUnpadded(s: string)
    requires Unpadded(s)
    ensures Strip(s) == s
  {
  }

  lemma LowerUnpadded(s: string)
    requires Unpadded(s)
    ensures Unpadded(Lower(s))
  {
    if s != [] {
      CaseMapping(s[0]);
      CaseMapping(s[|s| - 1]);
    }
  }

  /** `re.sub(r'\D', '', s)`: the digits of `s`, in order. */
  function Digits(s: string): (r: string)
    ensures |r| <= |s| && AllDigits(r)
  {
    if s == [] then [] else (if IsDigit(s[0]) then [s[0]] else []) + Digits(s[1..])
  }

  /** Deleting non-digits distributes over concatenation: nothing moves. */
  lemma {:induction false} DigitsAppend(a: string, b: string)
    ensures Digits(a + b) == Digits(a) + Digits(b)
  {
    if a == [] {
      assert a + b == b;
    } else {
      assert (a + b)[1..] == a[1..] + b;
      DigitsAppend(a[1..], b);
    }
  }

  /** A string of digits loses nothing. */
  lemma {:induction false} DigitsOfDigits(s: string)
    requires AllDigits(s)
    ensures Digits(s) == s
  {
    if s != [] {
      DigitsOfDigits(s[1..]);
    }
  }

  /** A string without digits is deleted entirely. */
  lemma {:induction false} DigitsOfNonDigits(s: string)
    requires forall i :: 0 <= i < |s| ==> !IsDigit(s[i])
    ensures Digits(s) == ""
  {
    if s != [] {
      DigitsOfNonDigits(s[1..]);
    }
  }

  // ---- split and join -------------------------------------------------

  /** One element of `str.split()`: non-empty, no whitespace. */
  predicate IsWord(w: string)
  {
    |w| > 0 && forall i :: 0 <= i < |w| ==> !IsSpace(w[i])
  }

  predicate AllWords(ws: seq<string>)
  {
    forall i :: 0 <= i < |ws| ==> IsWord(ws[i])
  }

  /** Index of the first whitespace character, or the length. */
  function FirstSpace(s: string): (n: nat)
    ensures n <= |s|
    ensures forall i :: 0 <= i < n ==> !IsSpace(s[i])
    ensures n < |s| ==> IsSpace(s[n])
  {
    if s == [] || IsSpace(s[0]) then 0 else 1 + FirstSpace(s[1..])
  }

  /** `s.split()`: the maximal runs of non-whitespace, in order. */
  function Split(s: string): seq<string>
    decreases |s|
  {
    var t := TrimLeft(s);
    if t == [] then []
    else
      var n := FirstSpace(t);
      [t[..n]] + Split(t[n..])
  }

  /** Every element of `split()` is a word. */
  lemma {:induction false} SplitWords(s: string)
    ensures AllWords(Split(s))
    decreases |s|
  {
    var t := TrimLeft(s);
    if t != [] {
      var n := FirstSpace(t);
      SplitWords(t[n..]);
      WordsCons(t[..n], Split(t[n..]));
    }
  }

  lemma WordsCons(w: string, ws: seq<string>)
    requires IsWord(w) && AllWords(ws)
    ensures AllWords([w] + ws)
  {
    var r := [w] + ws;
    forall i | 0 <= i < |r| ensures IsWord(r[i]) {
      if i > 0 {
        assert r[i] == ws[i - 1];
      }
    }
  }

  /** `' '.join(ws)`. */
  function Join(ws: seq<string>): string
  {
    if ws == [] then ""
    else if |ws| == 1 then ws[0]
    else ws[0] + " " + Join(ws[1..])
  }

  /** Whitespace appears only as single spaces between two words: no
      leading or trailing whitespace, no run of two, no tab or newline. */
  predicate SingleSpaced(s: string)
  {
    forall i :: 0 <= i < |s| && IsSpace(s[i]) ==>
      s[i] == ' ' && 0 < i < |s| - 1 && !IsSpace(s[i - 1]) && !IsSpace(s[i + 1])
  }

  lemma SingleSpacedUnpadded(s: string)
    requires SingleSpaced(s)
    ensures Unpadded(s)
  {
  }

  lemma {:induction false} FirstSpaceOfWord(w: string, rest: string)
    requires forall i :: 0 <= i < |w| ==> !IsSpace(w[i])
    requires rest == [] || IsSpace(rest[0])
    ensures FirstSpace(w + rest) == |w|
  {
    if w != [] {
      assert (w + rest)[1..] == w[1..] + rest;
      FirstSpaceOfWord(w[1..], rest);
    } else {
      assert w + rest == rest;
    }
  }

  /** Joining words with single spaces: empty only for no words, and
      single-spaced. */
  lemma {:induction false} JoinShape(ws: seq<string>)
    requires AllWords(ws)
    ensures (Join(ws) == "") == (ws == [])
    ensures SingleSpaced(Join(ws))
    ensures ws != [] ==> Join(ws)[0] == ws[0][0]
  {
    if |ws| > 1 {
      JoinShape(ws[1..]);
      var w, j := ws[0], Join(ws[1..]);
      assert IsWord(ws[1]);
      var s := w + " " + j;
      assert Join(ws) == s;
      forall i | 0 <= i < |s| && IsSpace(s[i])
        ensures s[i] == ' ' && 0 < i < |s| - 1 && !IsSpace(s[i - 1]) && !IsSpace(s[i + 1])
      {
        if i < |w| {
          assert false;
        } else if i == |w| {
          assert s[i - 1] == w[|w| - 1];
          assert s[i + 1] == j[0];
        } else {
          var k := i - |w| - 1;
          assert s[i] == j[k];
          assert s[i + 1] == j[k + 1];
          if k == 0 {
            assert false;
          } else {
            assert s[i - 1] == j[k - 1];
          }
        }
      }
    }
  }

  /** `split` takes a whole word off the front. */
  lemma SplitWord(w: string, rest: string)
    requires IsWord(w)
    requires rest == [] || IsSpace(rest[0])
    ensures Split(w + rest) == [w] + Split(rest)
  {
    var s := w + rest;
    assert TrimLeft(s) == s;
    FirstSpaceOfWord(w, rest);
    assert s[..|w|] == w;
    assert s[|w|..] == rest;
  }

  lemma SplitLeadingSpace(j: string)
    ensures Split(" " + j) == Split(j)
  {
    assert TrimLeft(" " + j) == TrimLeft(j);
  }

  /** Whitespace in front is skipped by `split`, whatever character it is. */
  lemma SplitSpaceFront(c: char, b: string)
    requires IsSpace(c)
    ensures Split([c] + b) == Split(b)
  {
    assert TrimLeft([c] + b) == TrimLeft(b);
  }

  /** Text made of whitespace only, the empty text included, splits into no
      words. */
  lemma {:induction false} SplitBlank(s: string)
    requires forall i :: 0 <= i < |s| ==> IsSpace(s[i])
    ensures Split(s) == []
  {
    if s == [] {
      SplitEmpty();
    } else {
      assert s == [s[0]] + s[1..];
      SplitBlank(s[1..]);
      SplitSpaceFront(s[0], s[1..]);
    }
  }

  /** Any whitespace character separates: the words on its left are followed
      by the words on its right, however much whitespace surrounds it. With
      SplitBlank and SplitOneWord this fixes `split` on every text. */
  lemma {:induction false} SplitAtSpace(a: string, c: char, b: string)
    requires IsSpace(c)
    ensures Split(a + [c] + b) == Split(a) + Split(b)
    decreases |a|
  {
    if a == [] {
      SplitAtSpaceEmpty(a, c, b);
    } else if IsSpace(a[0]) {
      SplitAtSpace(a[1..], c, b);
      SplitAtSpaceLead(a, c, b);
    } else if FirstSpace(a) < |a| {
      SplitAtSpace(a[FirstSpace(a)..], c, b);
      SplitAtSpaceAfterWord(a, FirstSpace(a), c, b);
    } else {
      SplitAtSpaceWhole(a, c, b);
    }
  }

  lemma SplitAtSpaceEmpty(a: string, c: char, b: string)
    requires a == [] && IsSpace(c)
    ensures Split(a + [c] + b) == Split(a) + Split(b)
  {
    SplitSpaceFront(c, b);
    SplitEmpty();
    Regroup(a, [c], b);
    EmptyPrefix(a, [c] + b);
    EmptyPrefix(Split(a), Split(b));
  }

  lemma EmptyPrefix<T>(a: seq<T>, x: seq<T>)
    requires a == []
    ensures a + x == x
  {
  }

  lemma LeadingWord(a: string, m: nat)
    requires a != [] && !IsSpace(a[0]) && m == FirstSpace(a)
    ensures 0 < m && IsWord(a[..m])
  {
    assert a[..m][0] == a[0];
  }

  lemma Regroup<T>(x: seq<T>, y: seq<T>, z: seq<T>)
    ensures x + y + z == x + (y + z)
  {
  }

  lemma ConsParts(a: string, c: char, b: string)
    requires a != []
    ensures a == [a[0]] + a[1..] && a + [c] + b == [a[0]] + (a[1..] + [c] + b)
  {
  }

  lemma SliceParts(a: string, m: nat, c: char, b: string)
    requires m <= |a|
    ensures a == a[..m] + a[m..] && a + [c] + b == a[..m] + (a[m..] + [c] + b)
  {
  }

  lemma SplitAtSpaceLead(a: string, c: char, b: string)
    requires a != [] && IsSpace(a[0]) && IsSpace(c)
    requires Split(a[1..] + [c] + b) == Split(a[1..]) + Split(b)
    ensures Split(a + [c] + b) == Split(a) + Split(b)
  {
    ConsParts(a, c, b);
    SplitSpaceFront(a[0], a[1..] + [c] + b);
    SplitSpaceFront(a[0], a[1..]);
  }

  lemma SplitAtSpaceAfterWord(a: string, m: nat, c: char, b: string)
    requires a != [] && !IsSpace(a[0]) && m == FirstSpace(a) < |a| && IsSpace(c)
    requires Split(a[m..] + [c] + b) == Split(a[m..]) + Split(b)
    ensures Split(a + [c] + b) == Split(a) + Split(b)
  {
    LeadingWord(a, m);
    var w, rest := a[..m], a[m..];
    SliceParts(a, m, c, b);
    SplitWord(w, rest);
    SplitWord(w, rest + [c] + b);
    Regroup([w], Split(rest), Split(b));
    calc {
      Split(a + [c] + b);
      Split(w + (rest + [c] + b));
      [w] + Split(rest + [c] + b);
      [w] + (Split(rest) + Split(b));
      [w] + Split(rest) + Split(b);
      Split(a) + Split(b);
    }
  }

  lemma SplitAtSpaceWhole(a: string, c: char, b: string)
    requires a != [] && !IsSpace(a[0]) && FirstSpace(a) == |a| && IsSpace(c)
    ensures Split(a + [c] + b) == Split(a) + Split(b)
  {
    LeadingWord(a, |a|);
    assert a[..|a|] == a;
    Regroup(a, [c], b);
    SplitOneWord(a);
    SplitWord(a, [c] + b);
    SplitSpaceFront(c, b);
  }

  lemma SplitEmpty()
    ensures Split("") == []
  {
    assert TrimLeft("") == "";
  }

  lemma SplitOneWord(w: string)
    requires IsWord(w)
    ensures Split(w) == [w]
  {
    SplitWord(w, "");
    SplitEmpty();
    assert w + "" == w;
  }

  lemma SplitJoinStep(w: string, j: string, rest: seq<string>)
    requires IsWord(w) && Split(j) == rest
    ensures Split(w + " " + j) == [w] + rest
  {
    assert w + " " + j == w + (" " + j);
    SplitWord(w, " " + j);
    SplitLeadingSpace(j);
  }

  /** `split` undoes `' '.join` on a list of words. */
  lemma {:induction false} SplitJoin(ws: seq<string>)
    requires AllWords(ws)
    ensures Split(Join(ws)) == ws
  {
    if |ws| <= 1 {
      SplitJoinShort(ws);
    } else {
      var w, rest := ws[0], ws[1..];
      assert IsWord(w) && AllWords(rest);
      SplitJoin(rest);
      SplitJoinStep(w, Join(rest), rest);
      JoinCons(ws);
    }
  }

  lemma SplitJoinShort(ws: seq<string>)
    requires AllWords(ws) && |ws| <= 1
    ensures Split(Join(ws)) == ws
  {
    if ws == [] {
      SplitEmpty();
    } else {
      SplitOneWord(ws[0]);
    }
  }

  lemma JoinCons(ws: seq<string>)
    requires |ws| > 1
    ensures Join(ws) == ws[0] + " " + Join(ws[1..])
    ensures ws == [ws[0]] + ws[1..]
  {
  }

  // ---- capitalize and title ------------------------------------------

  /** `w.capitalize()`: first character upper-cased, the rest lower-cased. */
  function Capitalize(w: string): string
  {
    if w == [] then [] else [UpperChar(w[0])] + Lower(w[1..])
  }

  lemma CapitalizeWord(w: string)
    ensures |Capitalize(w)| == |w|
    ensures IsWord(w) ==> IsWord(Capitalize(w))
  {
    if w != [] {
      var c := Capitalize(w);
      forall i | 0 <= i < |w| ensures IsSpace(c[i]) == IsSpace(w[i]) {
        CaseMapping(w[i]);
        if i > 0 {
          assert c[i] == Lower(w[1..])[i - 1];
        }
      }
    }
  }

  /** A capitalized word is left as it is by `capitalize`. */
  lemma CapitalizeIdempotent(w: string)
    ensures Capitalize(Capitalize(w)) == Capitalize(w)
  {
    if w != [] {
      var c := Capitalize(w);
      CaseMapping(w[0]);
      LowerFacts(w[1..]);
      assert c[1..] == Lower(w[1..]);
    }
  }

  /** Whether the character before position `i` is cased; before the first
      character that is `previousCased`. */
  predicate CasedBefore(s: string, i: nat, previousCased: bool)
    requires i <= |s|
  {
    if i == 0 then previousCased else IsLetter(s[i - 1])
  }

  /** `s.title()` continued from a state where the previous character was
      (or was not) cased: a letter after a letter is lower-cased, any other
      character is upper-cased. */
  function TitleFrom(s: string, previousCased: bool): (r: string)
    ensures |r| == |s|
    ensures forall i {:trigger r[i]} :: 0 <= i < |s| ==>
      r[i] == if CasedBefore(s, i, previousCased) then LowerChar(s[i]) else UpperChar(s[i])
  {
    if s == [] then []
    else
      var r := [if previousCased then LowerChar(s[0]) else UpperChar(s[0])] + TitleFrom(s[1..], IsLetter(s[0]));
      assert forall i :: 1 <= i < |s| ==> CasedBefore(s, i, previousCased) == CasedBefore(s[1..], i - 1, IsLetter(s[0]));
      r
  }

  /** `s.title()`: the first letter of every run of letters upper-cased, the
      other letters lower-cased. */
  function Title(s: string): (r: string)
    ensures |r| == |s|
    ensures forall i {:trigger r[i]} :: 0 <= i < |s| ==>
      r[i] == if CasedBefore(s, i, false) then LowerChar(s[i]) else UpperChar(s[i])
  {
    TitleFrom(s, false)
  }

  /** `title` changes only the case of letters and is idempotent. */
  lemma TitleFacts(s: string)
    ensures Lower(Title(s)) == Lower(s)
    ensures Title(Title(s)) == Title(s)
    ensures forall i :: 0 <= i < |s| ==> IsSpace(Title(s)[i]) == IsSpace(s[i])
  {
    var t := Title(s);
    forall i | 0 <= i < |s|
      ensures LowerChar(t[i]) == LowerChar(s[i]) && IsSpace(t[i]) == IsSpace(s[i])
      ensures IsLetter(t[i]) == IsLetter(s[i])
      ensures LowerChar(LowerChar(s[i])) == LowerChar(s[i]) && UpperChar(UpperChar(s[i])) == UpperChar(s[i])
    {
      CaseMapping(s[i]);
      assert t[i] == LowerChar(s[i]) || t[i] == UpperChar(s[i]);
    }
    forall i | 0 <= i < |s| ensures Title(t)[i] == t[i] {
      assert CasedBefore(t, i, false) == CasedBefore(s, i, false);
    }
  }
}
