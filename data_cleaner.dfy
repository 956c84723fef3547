/** The final draft of the record normaliser (data_cleaner.py): three field
    cleaners, the per-record cleaner that reads each field under two
    aliases, and `clean_data`, which drops nameless records and keeps the
    first record of every lower-cased name. */
module DataCleaner {
  import opened Py
  import opened PyStr
  import opened Accounts

  /** `normalize_phone`: the digits of the input, nothing else. */
  function NormalizePhone(phone: string): (r: string)
    ensures phone == "" ==> r == ""
    ensures AllDigits(r) && |r| <= |phone|
  {
    if phone == "" then "" else Digits(phone)
  }

  /** The digits come out in their original order: cleaning a concatenation
      is the concatenation of the cleaned parts. */
  lemma NormalizePhoneAppend(a: string, b: string)
    ensures NormalizePhone(a + b) == NormalizePhone(a) + NormalizePhone(b)
  {
    DigitsAppend(a, b);
    if a == [] {
      assert a + b == b;
    }
    if b == [] {
      assert a + b == a;
    }
  }

  /** Every digit is kept: a digit string is its own normal form, so
      `normalize_phone` is idempotent. */
  lemma NormalizePhoneIdempotent(phone: string)
    ensures AllDigits(phone) ==> NormalizePhone(phone) == phone
    ensures NormalizePhone(NormalizePhone(phone)) == NormalizePhone(phone)
  {
    if AllDigits(phone) {
      DigitsOfDigits(phone);
    }
    DigitsOfDigits(NormalizePhone(phone));
  }

  /** `normalize_website`: stripped and lower-cased, with `https://` put in
      front unless it already starts with `http://` or `https://`. */
  function NormalizeWebsite(website: string): (r: string)
    ensures r == "" <==> website == ""
  {
    if website == "" then ""
    else
      var w := Lower(Strip(website));
      if StartsWith(w, "http://") || StartsWith(w, "https://") then w
      else "https://" + w
  }

  /** A non-empty result is lower-case, carries no surrounding whitespace
      and names its scheme. */
  lemma NormalizeWebsiteShape(website: string)
    ensures var r := NormalizeWebsite(website);
      r != "" ==> IsLowerCase(r) && Unpadded(r) && (StartsWith(r, "http://") || StartsWith(r, "https://"))
  {
    if website != "" {
      var t := Strip(website);
      var w := Lower(t);
      LowerFacts(t);
      LowerUnpadded(t);
      if !(StartsWith(w, "http://") || StartsWith(w, "https://")) {
        WithScheme(w);
      }
    }
  }

  lemma WithScheme(w: string)
    requires IsLowerCase(w) && Unpadded(w)
    ensures var r := "https://" + w;
      IsLowerCase(r) && Unpadded(r) && StartsWith(r, "https://")
  {
    assert IsLowerCase("https://");
    PrependLower("https://", w);
  }


  /** A normalised address, lower-case, unpadded and naming its scheme, is
      left as it is. */
  lemma NormalizeWebsiteFixed(v: string)
    requires IsLowerCase(v) && Unpadded(v) && (StartsWith(v, "http://") || StartsWith(v, "https://"))
    ensures NormalizeWebsite(v) == v
  {
    StripUnpadded(v);
    LowerFacts(v);
    assert Lower(Strip(v)) == v;
  }

  /** The scheme is decided on the stripped, lower-cased address: one that
      names `http://` or `https://` is returned as that address, and any
      other one gets `https://` in front. */
  lemma NormalizeWebsiteCases(website: string)
    requires website != ""
    ensures var w := Lower(Strip(website));
      (StartsWith(w, "http://") || StartsWith(w, "https://") ==> NormalizeWebsite(website) == w) &&
      (!(StartsWith(w, "http://") || StartsWith(w, "https://")) ==> NormalizeWebsite(website) == "https://" + w)
  {
  }

  /** The stripped, lower-cased address is kept whole at the end of the
      result, behind at most the eight characters of `https://`. */
  lemma NormalizeWebsiteKeepsText(website: string)
    requires website != ""
    ensures var w, r := Lower(Strip(website)), NormalizeWebsite(website);
      |w| <= |r| <= |w| + 8 && r[|r| - |w|..] == w
  {
    var w := Lower(Strip(website));
    var r := NormalizeWebsite(website);
    if !(StartsWith(w, "http://") || StartsWith(w, "https://")) {
      assert r == "https://" + w;
      assert r[8..] == w;
    } else {
      assert r == w;
      assert r[|r| - |w|..] == r[0..];
    }
  }

  /** Normalising a normalised address changes nothing. */
  lemma NormalizeWebsiteIdempotent(website: string)
    ensures NormalizeWebsite(NormalizeWebsite(website)) == NormalizeWebsite(website)
  {
    var r := NormalizeWebsite(website);
    NormalizeWebsiteShape(website);
    if r != "" {
      NormalizeWebsiteFixed(r);
    }
  }

  /** The list comprehension of `title_case_name`. */
  function CapitalizeWords(ws: seq<string>): (cs: seq<string>)
    ensures |cs| == |ws|
    ensures AllWords(ws) ==> AllWords(cs)
  {
    seq(|ws|, i requires 0 <= i < |ws| => (CapitalizeWord(ws[i]); Capitalize(ws[i])))
  }

  /** `title_case_name`: the words of the stripped name, each capitalized,
      joined by single spaces. */
  function TitleCaseName(name: string): (r: string)
    ensures name == "" ==> r == ""
  {
    if name == "" then ""
    else Join(CapitalizeWords(Split(Strip(name))))
  }

  /** The result is single-spaced and its words are the words of the
      input, each capitalized. */
  lemma TitleCaseNameShape(name: string)
    ensures SingleSpaced(TitleCaseName(name))
    ensures Split(TitleCaseName(name)) == CapitalizeWords(Split(Strip(name)))
  {
    if name == "" {
      assert Split("") == [];
    } else {
      SplitWords(Strip(name));
      var cs := CapitalizeWords(Split(Strip(name)));
      JoinShape(cs);
      SplitJoin(cs);
    }
  }

  /** Capitalizing already capitalized words changes nothing. */
  lemma CapitalizeWordsIdempotent(ws: seq<string>)
    ensures CapitalizeWords(CapitalizeWords(ws)) == CapitalizeWords(ws)
  {
    var cs := CapitalizeWords(ws);
    forall i | 0 <= i < |cs| ensures Capitalize(cs[i]) == cs[i] {
      CapitalizeIdempotent(ws[i]);
    }
  }

  /** Every word of the result has its first character upper-cased and the
      rest lower-cased, so cleaning a clean name changes nothing. */
  lemma TitleCaseNameIdempotent(name: string)
    ensures forall w :: w in Split(TitleCaseName(name)) ==> Capitalize(w) == w
    ensures TitleCaseName(TitleCaseName(name)) == TitleCaseName(name)
  {
    TitleCaseNameShape(name);
    var r := TitleCaseName(name);
    var cs := CapitalizeWords(Split(Strip(name)));
    CapitalizeWordsIdempotent(Split(Strip(name)));
    forall w | w in cs ensures Capitalize(w) == w {
      var i :| 0 <= i < |cs| && cs[i] == w;
      assert CapitalizeWords(cs)[i] == Capitalize(cs[i]);
    }
    if r != "" {
      SingleSpacedUnpadded(r);
      StripUnpadded(r);
      assert Strip(r) == r;
      assert Split(r) == cs;
      assert TitleCaseName(r) == Join(CapitalizeWords(cs));
      assert r == Join(cs);
    }
  }

  /** `rec.get(primary) or rec.get(alias) or ""`. */
  function Pick(rec: Record, primary: string, alias: string): (v: string)
    ensures primary in rec && rec[primary] != "" ==> v == rec[primary]
    ensures v != "" ==> (primary in rec && v == rec[primary]) || (alias in rec && v == rec[alias])
    ensures v == "" ==> (primary !in rec || rec[primary] == "") && (alias !in rec || rec[alias] == "")
  {
    if Truthy(Get(rec, primary)) then rec[primary]
    else if Truthy(Get(rec, alias)) then rec[alias]
    else ""
  }

  /** `clean_record`: each field read under its two aliases, then cleaned. */
  function CleanRecord(rec: Record): Account
  {
    Account(
      TitleCaseName(Pick(rec, "Name", "name")),
      NormalizePhone(Pick(rec, "Phone", "phone")),
      NormalizeWebsite(Pick(rec, "Website", "website")))
  }

  /** Whatever the input, a cleaned record has a single-spaced name, a
      phone of digits only and a website that is empty or names its
      scheme. */
  lemma CleanRecordShape(rec: Record)
    ensures var r := CleanRecord(rec);
      SingleSpaced(r.name) && AllDigits(r.phone) &&
      (r.website == "" || StartsWith(r.website, "http://") || StartsWith(r.website, "https://"))
  {
    TitleCaseNameShape(Pick(rec, "Name", "name"));
    NormalizeWebsiteShape(Pick(rec, "Website", "website"));
  }

  /** A cleaned record read back as a dict finds its three fields under
      their first aliases, so cleaning it again gives it back unchanged. */
  lemma CleanRecordIdempotent(rec: Record)
    ensures CleanRecord(CleanRecord(rec).AsDict()) == CleanRecord(rec)
  {
    var c := CleanRecord(rec);
    var d := c.AsDict();
    assert "name" !in d && "phone" !in d && "website" !in d;
    assert Pick(d, "Name", "name") == c.name;
    assert Pick(d, "Phone", "phone") == c.phone;
    assert Pick(d, "Website", "website") == c.website;
    TitleCaseNameShape(Pick(rec, "Name", "name"));
    TitleCaseNameIdempotent(Pick(rec, "Name", "name"));
    NormalizePhoneIdempotent(Pick(rec, "Phone", "phone"));
    NormalizeWebsiteIdempotent(Pick(rec, "Website", "website"));
  }

  /** The dedup key: the lower-cased name. */
  function Key(c: Account): string
  {
    Lower(c.name)
  }

  /** The keys of a list of cleaned records: the `seen` set. */
  function Seen(cs: seq<Account>): set<string>
  {
    set i | 0 <= i < |cs| :: Key(cs[i])
  }

  lemma SeenSnoc(cs: seq<Account>, c: Account)
    ensures Seen(cs + [c]) == Seen(cs) + {Key(c)}
  {
    var t := cs + [c];
    assert t[|cs|] == c;
    forall k | k in Seen(t) ensures k in Seen(cs) + {Key(c)} {
      var i :| 0 <= i < |t| && Key(t[i]) == k;
      if i < |cs| {
        assert t[i] == cs[i];
      }
    }
    forall k | k in Seen(cs) ensures k in Seen(t) {
      var i :| 0 <= i < |cs| && Key(cs[i]) == k;
      assert t[i] == cs[i];
    }
  }

  /** `clean_record` applied to every input, in order. */
  function CleanAll(rs: seq<Record>): (cs: seq<Account>)
    ensures |cs| == |rs|
  {
    seq(|rs|, i requires 0 <= i < |rs| => CleanRecord(rs[i]))
  }

  /** The filter of `clean_data` on cleaned records: each record, in order,
      is appended unless its name is empty or its key was already seen. */
  function Dedup(cs: seq<Account>): (out: seq<Account>)
    ensures |out| <= |cs|
    ensures forall j :: 0 <= j < |out| ==> out[j].name != ""
  {
    if cs == [] then []
    else
      var prev := Dedup(cs[..|cs| - 1]);
      var c := cs[|cs| - 1];
      if c.name == "" || Key(c) in Seen(prev) then prev else prev + [c]
  }

  lemma CleanAllSnoc(rs: seq<Record>, i: nat)
    requires i < |rs|
    ensures CleanAll(rs[..i + 1]) == CleanAll(rs[..i]) + [CleanRecord(rs[i])]
  {
    assert rs[..i + 1] == rs[..i] + [rs[i]];
  }

  lemma DedupSnoc(cs: seq<Account>, c: Account)
    ensures Dedup(cs + [c]) ==
      if c.name == "" || Key(c) in Seen(Dedup(cs)) then Dedup(cs) else Dedup(cs) + [c]
  {
    assert (cs + [c])[..|cs|] == cs;
  }

  /** `clean_data`. */
  method CleanData(records: seq<Record>) returns (cleaned: seq<Account>)
    ensures cleaned == Dedup(CleanAll(records))
    ensures forall j :: 0 <= j < |cleaned| ==> cleaned[j].name != ""
    ensures forall i, j :: 0 <= i < j < |cleaned| ==> Key(cleaned[i]) != Key(cleaned[j])
  {
    cleaned := [];
    var seen: set<string> := {};
    for i := 0 to |records|
      invariant cleaned == Dedup(CleanAll(records[..i]))
      invariant seen == Seen(cleaned)
    {
      var c := CleanRecord(records[i]);
      CleanAllSnoc(records, i);
      DedupSnoc(CleanAll(records[..i]), c);
      // A record whose cleaned name is empty is dropped.
      if c.name == "" {
        continue;
      }
      var key := Lower(c.name);
      if key in seen {
        continue;
      }
      SeenSnoc(cleaned, c);
      seen := seen + {key};
      cleaned := cleaned + [c];
    }
    assert records[..|records|] == records;
    DedupDistinct(CleanAll(records));
  }

  /** The keys kept are exactly the keys of the records with a non-empty
      name: no name is lost, none is invented. */
  lemma {:induction false} DedupSeen(cs: seq<Account>)
    ensures Seen(Dedup(cs)) == set k | 0 <= k < |cs| && cs[k].name != "" :: Key(cs[k])
  {
    if cs != [] {
      var p := cs[..|cs| - 1];
      DedupSeen(p);
      var c := cs[|cs| - 1];
      var prev := Dedup(p);
      var all := set k | 0 <= k < |cs| && cs[k].name != "" :: Key(cs[k]);
      var before := set k | 0 <= k < |p| && p[k].name != "" :: Key(p[k]);
      if c.name == "" {
        assert all == before;
      } else {
        assert all == before + {Key(c)};
        SeenSnoc(prev, c);
      }
    }
  }

  /** No two kept records share a key. */
  lemma {:induction false} DedupDistinct(cs: seq<Account>)
    ensures forall i, j :: 0 <= i < j < |Dedup(cs)| ==> Key(Dedup(cs)[i]) != Key(Dedup(cs)[j])
  {
    if cs != [] {
      var p := cs[..|cs| - 1];
      DedupDistinct(p);
      var prev := Dedup(p);
      var c := cs[|cs| - 1];
      if !(c.name == "" || Key(c) in Seen(prev)) {
        var out := prev + [c];
        forall i, j | 0 <= i < j < |out| ensures Key(out[i]) != Key(out[j]) {
          if j == |prev| {
            assert Key(out[i]) in Seen(prev);
          }
        }
      }
    }
  }

  /** Position `k` holds a record with a non-empty name whose key no
      earlier record has. */
  predicate IsFirst(cs: seq<Account>, k: int)
    requires 0 <= k < |cs|
  {
    cs[k].name != "" && forall i :: 0 <= i < k ==> Key(cs[i]) != Key(cs[k])
  }

  /** `clean_data` keeps an order-preserving subsequence: the `j`-th output
      is the record at `origin[j]`, the origins increase, and each is the
      first occurrence of its key. */
  lemma {:induction false} DedupOrigins(cs: seq<Account>) returns (origin: seq<nat>)
    ensures |origin| == |Dedup(cs)|
    ensures forall j :: 0 <= j < |origin| ==> origin[j] < |cs|
    ensures forall i, j :: 0 <= i < j < |origin| ==> origin[i] < origin[j]
    ensures forall j :: 0 <= j < |origin| ==> Dedup(cs)[j] == cs[origin[j]] && IsFirst(cs, origin[j])
  {
    if cs == [] {
      origin := [];
    } else {
      var n := |cs| - 1;
      var p := cs[..n];
      var before := DedupOrigins(p);
      forall j | 0 <= j < |before| ensures IsFirst(cs, before[j]) {
        IsFirstPrefix(p, cs, before[j]);
      }
      if cs[n].name == "" || Key(cs[n]) in Seen(Dedup(p)) {
        origin := before;
      } else {
        origin := before + [n];
        KeptIsFirst(cs);
      }
    }
  }

  /** Being a first occurrence does not depend on what follows. */
  lemma IsFirstPrefix(p: seq<Account>, cs: seq<Account>, k: int)
    requires |p| <= |cs| && p == cs[..|p|] && 0 <= k < |p| && IsFirst(p, k)
    ensures IsFirst(cs, k)
  {
    forall i | 0 <= i < k ensures Key(cs[i]) != Key(cs[k]) {
      assert cs[i] == p[i] && cs[k] == p[k];
    }
  }

  /** A last record that passes the filter is the first of its key. */
  lemma KeptIsFirst(cs: seq<Account>)
    requires cs != [] && cs[|cs| - 1].name != ""
    requires Key(cs[|cs| - 1]) !in Seen(Dedup(cs[..|cs| - 1]))
    ensures IsFirst(cs, |cs| - 1)
  {
    var n := |cs| - 1;
    var p, c := cs[..n], cs[n];
    DedupSeen(p);
    forall i | 0 <= i < n ensures Key(cs[i]) != Key(c) {
      assert cs[i] == p[i];
      if cs[i].name != "" {
        assert Key(p[i]) in Seen(Dedup(p));
      } else {
        LowerFacts(c.name);
        LowerFacts(cs[i].name);
      }
    }
  }


  /** Records with distinct non-empty names pass the filter unchanged. */
  lemma {:induction false} DedupOfDistinct(cs: seq<Account>)
    requires forall j :: 0 <= j < |cs| ==> cs[j].name != ""
    requires forall i, j :: 0 <= i < j < |cs| ==> Key(cs[i]) != Key(cs[j])
    ensures Dedup(cs) == cs
  {
    if cs != [] {
      var n := |cs| - 1;
      var p := cs[..n];
      DedupOfDistinct(p);
      assert Key(cs[n]) !in Seen(p);
      assert p + [cs[n]] == cs;
    }
  }

  /** The dicts `clean_data` returns. */
  function Dicts(cs: seq<Account>): (ds: seq<Record>)
    ensures |ds| == |cs|
  {
    seq(|cs|, i requires 0 <= i < |cs| => cs[i].AsDict())
  }

  /** Running `clean_data` on its own output is a no-op. */
  lemma CleanDataIdempotent(rs: seq<Record>)
    ensures var out := Dedup(CleanAll(rs)); Dedup(CleanAll(Dicts(out))) == out
  {
    var cs := CleanAll(rs);
    var out := Dedup(cs);
    var origin := DedupOrigins(cs);
    forall j | 0 <= j < |out| ensures CleanAll(Dicts(out))[j] == out[j] {
      CleanRecordIdempotent(rs[origin[j]]);
    }
    assert CleanAll(Dicts(out)) == out;
    DedupDistinct(cs);
    DedupOfDistinct(out);
  }

  /** The example batch: two spellings of "acme corp" and a nameless record
      become one record, the first, named "Acme Corp", whatever the other
      fields hold. */
  lemma ExampleBatch(r0: Record, r1: Record, r2: Record)
    requires "Name" in r0 && r0["Name"] == "  acme corp  " && "name" !in r0
    requires "Name" in r1 && r1["Name"] == "ACME corp" && "name" !in r1
    requires "Name" in r2 && r2["Name"] == "" && "name" !in r2
    ensures Dedup(CleanAll([r0, r1, r2])) == [CleanRecord(r0)]
    ensures CleanRecord(r0).name == "Acme Corp"
  {
    ExampleNames();
    SameNameBatch(r0, r1, r2, "  acme corp  ", "ACME corp");
  }

  /** Three records of which the second cleans to the same name as the
      first and the third has an empty name reduce to the first. */
  lemma SameNameBatch(r0: Record, r1: Record, r2: Record, n0: string, n1: string)
    requires "Name" in r0 && r0["Name"] == n0 && "name" !in r0
    requires "Name" in r1 && r1["Name"] == n1 && "name" !in r1
    requires "Name" in r2 && r2["Name"] == "" && "name" !in r2
    requires TitleCaseName(n0) != "" && TitleCaseName(n1) == TitleCaseName(n0)
    ensures Dedup(CleanAll([r0, r1, r2])) == [CleanRecord(r0)]
    ensures CleanRecord(r0).name == TitleCaseName(n0)
  {
    CleanName(r0, n0);
    CleanName(r1, n1);
    CleanName(r2, "");
    var cs := CleanAll([r0, r1, r2]);
    assert cs[0] == CleanRecord(r0) && cs[1] == CleanRecord(r1) && cs[2] == CleanRecord(r2);
    DedupRepeat(cs);
  }

  /** The name a record is cleaned to when it has a `Name` field and no
      `name` field. */
  lemma CleanName(rec: Record, name: string)
    requires "Name" in rec && rec["Name"] == name && "name" !in rec
    ensures CleanRecord(rec).name == TitleCaseName(name)
  {
  }

  /** A record followed by one with the same name and one without a name
      reduces to the first. */
  lemma DedupRepeat(cs: seq<Account>)
    requires |cs| == 3 && cs[0].name != "" && cs[1].name == cs[0].name && cs[2].name == ""
    ensures Dedup(cs) == [cs[0]]
  {
    var c0, c1, c2 := cs[0], cs[1], cs[2];
    assert cs == [c0, c1] + [c2];
    DedupSnoc([c0, c1], c2);
    assert [c0, c1] == [c0] + [c1];
    DedupSnoc([c0], c1);
    assert [c0] == [] + [c0];
    DedupSnoc([], c0);
    assert Key(c1) in Seen([c0]) by {
      assert Key([c0][0]) in Seen([c0]);
    }
  }

  /** The two spellings of the example name title-case alike. */
  lemma ExampleNames()
    ensures TitleCaseName("  acme corp  ") == "Acme Corp"
    ensures TitleCaseName("ACME corp") == "Acme Corp"
  {
    ExampleWords();
    assert "  acme corp  " == "  " + "acme corp" + "  ";
    StripBetween("  ", "acme corp", "  ");
    TitleCaseTwoWords("  acme corp  ", "acme", "corp");
    StripUnpadded("ACME corp");
    TitleCaseTwoWords("ACME corp", "ACME", "corp");
  }

  lemma ExampleWords()
    ensures "acme corp" == "acme" + " " + "corp" && "ACME corp" == "ACME" + " " + "corp"
    ensures IsWord("acme") && IsWord("ACME") && IsWord("corp")
    ensures Capitalize("acme") == "Acme" && Capitalize("ACME") == "Acme" && Capitalize("corp") == "Corp"
    ensures "Acme" + " " + "Corp" == "Acme Corp"
  {
    CapitalizeExample("acme", "Acme");
    CapitalizeExample("ACME", "Acme");
    CapitalizeExample("corp", "Corp");
  }

  lemma CapitalizeExample(w: string, c: string)
    requires |w| == |c| > 0 && c[0] == UpperChar(w[0])
    requires forall i :: 0 < i < |w| ==> c[i] == LowerChar(w[i])
    ensures Capitalize(w) == c
  {
    var r := Capitalize(w);
    forall i | 0 <= i < |w| ensures r[i] == c[i] {
      if i > 0 {
        assert r[i] == Lower(w[1..])[i - 1];
      }
    }
  }


  /** `title_case_name` on a two-word name. */
  lemma TitleCaseTwoWords(name: string, a: string, b: string)
    requires IsWord(a) && IsWord(b)
    requires Strip(name) == a + " " + b
    ensures TitleCaseName(name) == Capitalize(a) + " " + Capitalize(b)
  {
    TwoWords(name, a, b);
    var cs := CapitalizeWords([a, b]);
    assert cs[0] == Capitalize(a) && cs[1] == Capitalize(b);
    JoinTwo(cs);
  }

  lemma TwoWords(name: string, a: string, b: string)
    requires IsWord(a) && IsWord(b)
    requires Strip(name) == a + " " + b
    ensures name != "" && Split(Strip(name)) == [a, b]
  {
    JoinTwo([a, b]);
    SplitJoin([a, b]);
  }

  lemma JoinTwo(ws: seq<string>)
    requires |ws| == 2
    ensures Join(ws) == ws[0] + " " + ws[1]
  {
    assert ws[1..] == [ws[1]];
  }
}
