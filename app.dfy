/** The earlier draft of the record normaliser (app.py): `title` instead of
    per-word capitalisation, a `+` / `+91` phone format, `https://` put in
    front of anything that does not start with `http`, missing fields read
    as empty, and no deduplication. */
module App {
  import opened Py
  import opened PyStr
  import opened Accounts

  /** `clean_name`: `name.strip().title()`. */
  function CleanName(name: string): string
  {
    Title(Strip(name))
  }

  /** The result has the stripped name's length and whitespace, each
      whitespace character left as it was; only the case of letters
      changes. */
  lemma CleanNameFacts(name: string)
    ensures var t, r := Strip(name), CleanName(name);
      |r| == |t| && Unpadded(r) && Lower(r) == Lower(t) &&
      (forall i :: 0 <= i < |t| ==> IsSpace(r[i]) == IsSpace(t[i])) &&
      (forall i :: 0 <= i < |t| && IsSpace(t[i]) ==> r[i] == t[i])
  {
    var t := Strip(name);
    var r := Title(t);
    TitleFacts(t);
    forall i | 0 <= i < |t| && IsSpace(t[i]) ensures r[i] == t[i] {
      assert !IsLetter(t[i]);
    }
  }

  lemma CleanNameIdempotent(name: string)
    ensures CleanName(CleanName(name)) == CleanName(name)
  {
    var r := CleanName(name);
    CleanNameFacts(name);
    StripUnpadded(r);
    TitleFacts(Strip(name));
  }

  /** `clean_phone` before the `+` is put in front: the digits, with `91`
      put in front of ten digits, or in place of the leading `0` of eleven. */
  function PhoneDigits(phone: string): (d: string)
    ensures AllDigits(d)
  {
    var digits := Digits(phone);
    if |digits| == 10 then "91" + digits
    else if StartsWith(digits, "0") && |digits| == 11 then "91" + digits[1..]
    else digits
  }

  /** `clean_phone`: `+` followed by digits only. */
  function CleanPhone(phone: string): (r: string)
    ensures |r| >= 1 && r[0] == '+' && AllDigits(r[1..])
  {
    var r := "+" + PhoneDigits(phone);
    assert r[1..] == PhoneDigits(phone);
    r
  }

  /** Ten digits get the country code `91` in front. */
  lemma CleanPhoneTen(phone: string)
    requires |Digits(phone)| == 10
    ensures CleanPhone(phone) == "+91" + Digits(phone)
  {
    PlusNinetyOne(Digits(phone));
  }

  /** Eleven digits with a leading `0` have that `0` replaced by `91`. */
  lemma CleanPhoneTrunkZero(phone: string)
    requires |Digits(phone)| == 11 && Digits(phone)[0] == '0'
    ensures CleanPhone(phone) == "+91" + Digits(phone)[1..]
  {
    assert StartsWith(Digits(phone), "0");
    PlusNinetyOne(Digits(phone)[1..]);
  }

  /** Any other number of digits is kept as it is. */
  lemma CleanPhoneOther(phone: string)
    requires |Digits(phone)| != 10 && !(|Digits(phone)| == 11 && Digits(phone)[0] == '0')
    ensures CleanPhone(phone) == "+" + Digits(phone)
  {
    if StartsWith(Digits(phone), "0") {
      assert Digits(phone)[0] == '0';
    }
  }

  lemma PlusNinetyOne(d: string)
    ensures "+" + ("91" + d) == "+91" + d
  {
  }

  /** An input without digits gives a lone `+`. */
  lemma CleanPhoneNoDigits(phone: string)
    requires forall i :: 0 <= i < |phone| ==> !IsDigit(phone[i])
    ensures CleanPhone(phone) == "+"
  {
    DigitsOfNonDigits(phone);
  }

  /** A cleaned number is cleaned to itself: it has twelve digits when a
      prefix was added, and otherwise a count the rules leave alone. */
  lemma CleanPhoneIdempotent(phone: string)
    ensures CleanPhone(CleanPhone(phone)) == CleanPhone(phone)
  {
    var r := CleanPhone(phone);
    var d := PhoneDigits(phone);
    assert r == "+" + d;
    assert Digits(r) == Digits("+") + Digits(d) by {
      DigitsAppend("+", d);
    }
    assert Digits("+") == "" by {
      assert Digits("+"[1..]) == "";
    }
    DigitsOfDigits(d);
    assert Digits(r) == d;
    if |Digits(phone)| == 11 && StartsWith(Digits(phone), "0") {
      assert |d| == 12;
    }
  }

  /** `clean_website`: stripped, lower-cased, with `https://` put in front
      unless it starts with `http`. */
  function CleanWebsite(website: string): string
  {
    var site := Lower(Strip(website));
    if !StartsWith(site, "http") then "https://" + site else site
  }

  /** The result is lower-case, carries no surrounding whitespace and starts
      with `http`; the stripped, lower-cased input is kept at its end. */
  lemma CleanWebsiteShape(website: string)
    ensures var site, r := Lower(Strip(website)), CleanWebsite(website);
      IsLowerCase(r) && Unpadded(r) && StartsWith(r, "http") &&
      |site| <= |r| && r[|r| - |site|..] == site
  {
    var site := CleanSite(website);
    CleanWebsiteCases(website);
    if !StartsWith(site, "http") {
      SchemeFacts(site);
    } else {
      assert site[|site| - |site|..] == site;
    }
  }

  /** The stripped, lower-cased site is lower-case and unpadded. */
  lemma CleanSite(website: string) returns (site: string)
    ensures site == Lower(Strip(website)) && IsLowerCase(site) && Unpadded(site)
  {
    var t := Strip(website);
    site := Lower(t);
    LowerFacts(t);
    LowerUnpadded(t);
  }

  /** Putting `https://` in front of a lower-case, unpadded site. */
  lemma SchemeFacts(site: string)
    requires IsLowerCase(site) && Unpadded(site)
    ensures var r := "https://" + site;
      IsLowerCase(r) && Unpadded(r) && StartsWith(r, "http") && r[|r| - |site|..] == site
  {
    var r := "https://" + site;
    PrependLower("https://", site);
    assert r[..4] == "http";
    assert r[|r| - |site|..] == site;
  }

  /** A site that starts with `http` once stripped and lower-cased is kept
      as that site; any other one gets `https://` in front. */
  lemma CleanWebsiteCases(website: string)
    ensures var site := Lower(Strip(website));
      (StartsWith(site, "http") ==> CleanWebsite(website) == site) &&
      (!StartsWith(site, "http") ==> CleanWebsite(website) == "https://" + site)
  {
  }

  /** An empty or blank input becomes the bare `https://`. */
  lemma CleanWebsiteBlank(website: string)
    requires forall i :: 0 <= i < |website| ==> IsSpace(website[i])
    ensures CleanWebsite(website) == "https://"
  {
    assert Lower("") == "";
  }

  lemma CleanWebsiteIdempotent(website: string)
    ensures CleanWebsite(CleanWebsite(website)) == CleanWebsite(website)
  {
    var r := CleanWebsite(website);
    CleanWebsiteShape(website);
    StripUnpadded(r);
    LowerFacts(r);
  }

  /** `clean_record`: each field read with `.get(key, "")`, then cleaned. */
  function CleanRecord(record: Record): Account
  {
    Account(
      CleanName(GetOr(record, "Name", "")),
      CleanPhone(GetOr(record, "Phone", "")),
      CleanWebsite(GetOr(record, "Website", "")))
  }

  /** A record with none of the three fields is cleaned as if each were
      empty. */
  lemma CleanRecordMissing(record: Record)
    requires "Name" !in record && "Phone" !in record && "Website" !in record
    ensures CleanRecord(record) == Account("", "+", "https://")
  {
    assert Strip("") == "";
    assert Title("") == "";
    assert Digits("") == "";
    CleanWebsiteBlank("");
  }

  /** A cleaned record read back as a dict finds each field under its key. */
  lemma CleanRecordOfDict(c: Account)
    ensures CleanRecord(c.AsDict()) == Account(CleanName(c.name), CleanPhone(c.phone), CleanWebsite(c.website))
  {
    var d := c.AsDict();
    assert GetOr(d, "Name", "") == c.name;
    assert GetOr(d, "Phone", "") == c.phone;
    assert GetOr(d, "Website", "") == c.website;
  }

  /** Cleaning a cleaned record, read back as a dict, gives it back. */
  lemma CleanRecordIdempotent(record: Record)
    ensures CleanRecord(CleanRecord(record).AsDict()) == CleanRecord(record)
  {
    CleanRecordOfDict(CleanRecord(record));
    CleanNameIdempotent(GetOr(record, "Name", ""));
    CleanPhoneIdempotent(GetOr(record, "Phone", ""));
    CleanWebsiteIdempotent(GetOr(record, "Website", ""));
  }

  /** The list comprehension of the upload route: one cleaned record per
      raw record, in order. */
  function CleanAll(records: seq<Record>): (cleaned: seq<Account>)
    ensures |cleaned| == |records|
  {
    Map(CleanRecord, records)
  }

  /** Nothing is dropped, merged or reordered: cleaning a concatenation is
      the concatenation of the cleaned parts. */
  lemma CleanAllAppend(a: seq<Record>, b: seq<Record>)
    ensures CleanAll(a + b) == CleanAll(a) + CleanAll(b)
  {
    MapAppend(CleanRecord, a, b);
  }

  /** Cleaning the cleaned batch again changes nothing. */
  lemma CleanAllIdempotent(records: seq<Record>)
    ensures var cleaned := CleanAll(records);
      CleanAll(Map((c: Account) => c.AsDict(), cleaned)) == cleaned
  {
    var cleaned := CleanAll(records);
    forall i | 0 <= i < |cleaned| ensures CleanRecord(cleaned[i].AsDict()) == cleaned[i] {
      CleanRecordIdempotent(records[i]);
    }
  }
}
