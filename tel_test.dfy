/** The phone-number check of the `tel:` link test: the formats accepted for
    each expected number, the number extracted from an anchor's `href`, the
    loop that collects one error per rejected anchor (or a single error when
    no anchor was found), and the verdict that the error list is empty. */
module TelTest {
  import opened JsStrings
  import opened Crawler

  // ---------------------------------------------------------------------
  // generateAllowedFormats
  // ---------------------------------------------------------------------

  /** Every character of `s` is a digit. */
  predicate AllDigits(s: string)
  {
    forall k :: 0 <= k < |s| ==> IsDigit(s[k])
  }

  /** The three digit groups after the leading `1`: up to three digits, up
      to three more, and the rest, each cut short when `d` is. */
  function Groups(d: string): (groups: seq<string>)
    ensures |groups| == 3 && |groups[0]| <= 3 && |groups[1]| <= 3
    ensures groups == [d[Min(1, |d|)..Min(4, |d|)], d[Min(4, |d|)..Min(7, |d|)], d[Min(7, |d|)..]]
  {
    assert Slice(d, 1, 4) == d[Min(1, |d|)..Min(4, |d|)] by {
      if |d| < 4 {
        assert d[Min(1, |d|)..] == d[Min(1, |d|)..|d|];
      }
    }
    assert Slice(d, 4, 7) == d[Min(4, |d|)..Min(7, |d|)] by {
      if |d| < 7 {
        assert d[Min(4, |d|)..] == d[Min(4, |d|)..|d|];
      }
    }
    assert Slice(d, 7, |d|) == d[Min(7, |d|)..] by {
      if |d| < 7 {
        assert d[|d|..] == [];
      }
    }
    [Slice(d, 1, 4), Slice(d, 4, 7), Slice(d, 7, |d|)]
  }

  /** The groups are consecutive pieces of `d`: together they are `d`
      without its first character. */
  lemma GroupsCoverDigits(d: string)
    requires |d| >= 1
    ensures Groups(d)[0] + Groups(d)[1] + Groups(d)[2] == d[1..]
  {
    if |d| >= 7 {
      assert d[1..] == d[1..4] + d[4..7] + d[7..];
    } else if |d| >= 4 {
      assert d[1..] == d[1..4] + d[4..];
    }
  }

  /** Three groups joined by dashes. */
  lemma DashedShape(a: string, b: string, c: string)
    ensures Join([a, b, c], '-') == a + ['-'] + (b + ['-'] + c)
  {
    assert [a, b, c][1..] == [b, c] && [b, c][1..] == [c];
    assert Join([c], '-') == c;
    assert Join([b, c], '-') == b + ['-'] + c;
  }

  /** Three groups joined by dashes end in a dash or in a digit of the last
      group. */
  lemma DashedEnd(a: string, b: string, c: string)
    requires AllDigits(c)
    ensures var s := Join([a, b, c], '-');
            s != [] && (s[|s| - 1] == '-' || IsDigit(s[|s| - 1]))
  {
    DashedShape(a, b, c);
    var s := Join([a, b, c], '-');
    var tail := ['-'] + c;
    assert s == a + ['-'] + b + tail;
    assert s[|s| - 1] == tail[|tail| - 1];
  }

  /** Removing non-digits from digit groups joined by dashes gives the
      groups run together. */
  lemma DigitsOfDashed(a: string, b: string, c: string)
    requires AllDigits(a) && AllDigits(b) && AllDigits(c)
    ensures Digits(Join([a, b, c], '-')) == a + b + c
  {
    DashedShape(a, b, c);
    DigitsOfDigits(a);
    DigitsOfDigits(b);
    DigitsOfDigits(c);
    assert Digits(['-']) == [];
    assert Digits(b + ['-'] + c) == b + c by {
      DigitsConcat(b + ['-'], c);
      DigitsConcat(b, ['-']);
      assert b + [] == b;
    }
    assert Digits(a + ['-'] + (b + ['-'] + c)) == a + (b + c) by {
      DigitsConcat(a + ['-'], b + ['-'] + c);
      DigitsConcat(a, ['-']);
      assert a + [] == a;
    }
    assert a + (b + c) == a + b + c;
  }

  /** Each of the three formats of a digit string starting with `1` has
      that digit string as its digits. */
  lemma FormatsKeepDigits(d: string)
    requires AllDigits(d) && StartsWith(d, "1")
    ensures Digits("+" + d) == d
    ensures Digits("+1-" + Join(Groups(d), '-')) == d
    ensures Digits("1-" + Join(Groups(d), '-')) == d
  {
    var g := Groups(d);
    var dashed := Join(g, '-');
    assert Digits(dashed) == d[1..] by {
      GroupsCoverDigits(d);
      assert AllDigits(g[0]) && AllDigits(g[1]) && AllDigits(g[2]);
      assert g == [g[0], g[1], g[2]];
      DigitsOfDashed(g[0], g[1], g[2]);
    }
    assert d == [d[0]] + d[1..] && d[0] == '1';
    assert Digits("+" + d) == d by {
      DigitsConcat("+", d);
      DigitsOfDigits(d);
      assert Digits("+") == [];
    }
    assert Digits("+1-" + dashed) == d by {
      DigitsConcat("+1-", dashed);
      assert Digits("+1-") == "1" by {
        assert "+1-"[1..] == "1-" && "1-"[1..] == "-" && "-"[1..] == [];
      }
    }
    assert Digits("1-" + dashed) == d by {
      DigitsConcat("1-", dashed);
      assert Digits("1-") == "1" by {
        assert "1-"[1..] == "-" && "-"[1..] == [];
      }
    }
  }

  /** `generateAllowedFormats(phone)`: nothing unless the digits of `phone`
      start with the country code `1`; otherwise three formats that all have
      exactly those digits. */
  function GenerateAllowedFormats(phone: string): (formats: seq<string>)
    ensures formats == [] <==> !StartsWith(Digits(phone), "1")
    ensures formats != [] ==> |formats| == 3
    ensures forall i :: 0 <= i < |formats| ==> Digits(formats[i]) == Digits(phone)
  {
    var d := Digits(phone);
    if !StartsWith(d, "1") then []
    else
      var dashed := Join(Groups(d), '-');
      FormatsKeepDigits(d);
      ["+" + d, "+1-" + dashed, "1-" + dashed]
  }

  /** The formats depend on the digits of `phone` only: punctuation,
      spaces and letters make no difference. */
  lemma FormatsDependOnDigitsOnly(phone: string)
    ensures GenerateAllowedFormats(phone) == GenerateAllowedFormats(Digits(phone))
  {
    DigitsOfDigits(Digits(phone));
  }

  /** A number written `+1 (NNN) XXX-YYYY` is accepted in the same formats
      as the plain digits `1NNNXXXYYYY`: for instance `+1 (888) 888-8888`
      and `18888888888`. */
  lemma PunctuatedNumberAgreesWithDigits(a: string, b: string, c: string)
    requires AllDigits(a) && AllDigits(b) && AllDigits(c)
    ensures GenerateAllowedFormats("+1 (" + a + ") " + b + "-" + c)
            == GenerateAllowedFormats("1" + a + b + c)
  {
    var plain := "1" + a + b + c;
    DigitsOfDigits(a);
    DigitsOfDigits(b);
    DigitsOfDigits(c);
    assert Digits("+1 (") == "1" by {
      assert "+1 ("[1..] == "1 (" && "1 ("[1..] == " (" && " ("[1..] == "(" && "("[1..] == [];
    }
    assert Digits(") ") == [] by {
      assert ") "[1..] == " " && " "[1..] == [];
    }
    assert Digits("-") == [];
    var p1 := "+1 (" + a;
    var p2 := p1 + ") ";
    var p3 := p2 + b;
    var p4 := p3 + "-";
    DigitsConcat("+1 (", a);
    DigitsConcat(p1, ") ");
    DigitsConcat(p2, b);
    DigitsConcat(p3, "-");
    DigitsConcat(p4, c);
    assert Digits(p4 + c) == "1" + a + b + c by {
      assert Digits(p2) == "1" + a + [];
      assert "1" + a + [] == "1" + a;
      assert Digits(p4) == "1" + a + b + [];
      assert "1" + a + b + [] == "1" + a + b;
    }
    assert AllDigits(plain);
    DigitsOfDigits(plain);
    FormatsDependOnDigitsOnly(p4 + c);
  }

  /** Reading the formats back: the first is `+` and the digits, the second
      is `+` and the third, and the third splits at its dashes into `1` and
      the three digit groups (for an eleven-digit number `1NNNXXXYYYY`:
      `1`, `NNN`, `XXX`, `YYYY`). */
  lemma FormatsReadBack(phone: string)
    requires StartsWith(Digits(phone), "1")
    ensures var d := Digits(phone);
            var formats := GenerateAllowedFormats(phone);
            formats[0] == "+" + d && formats[1] == "+" + formats[2]
            && Split(formats[2], '-') == ["1"] + Groups(d)
  {
    var d := Digits(phone);
    var g := Groups(d);
    var dashed := Join(g, '-');
    assert forall i :: 0 <= i < |g| ==> '-' !in g[i] by {
      GroupsCoverDigits(d);
      assert AllDigits(g[0]) && AllDigits(g[1]) && AllDigits(g[2]);
    }
    SplitJoin(g, '-');
    assert "1-" + dashed == "1" + ['-'] + dashed;
    SplitAtSeparator("1", '-', dashed);
    assert "+1-" + dashed == "+" + ("1-" + dashed);
  }

  /** The three formats are different strings. */
  lemma FormatsDistinct(phone: string)
    ensures var formats := GenerateAllowedFormats(phone);
            forall i, j :: 0 <= i < j < |formats| ==> formats[i] != formats[j]
  {
    var formats := GenerateAllowedFormats(phone);
    if formats != [] {
      var d := Digits(phone);
      var dashed := Join(Groups(d), '-');
      assert formats == ["+" + d, "+1-" + dashed, "1-" + dashed];
      assert formats[0][0] == '+' && formats[1][0] == '+' && formats[2][0] == '1';
      assert formats[1][2] == '-';
      if |d| > 1 {
        assert formats[0][2] == d[1];
        assert IsDigit(d[1]);
      } else {
        assert |formats[0]| == 2 < |formats[1]|;
      }
    }
  }

  // ---------------------------------------------------------------------
  // validPhoneVariations
  // ---------------------------------------------------------------------

  /** The lists run together in order, as `flatMap` does with the lists
      its callback returns. */
  function Flatten(lists: seq<seq<string>>): seq<string>
  {
    if lists == [] then [] else lists[0] + Flatten(lists[1..])
  }

  /** A string is in the flattened list exactly when it is in one of the
      lists. */
  lemma {:induction false} FlattenContains(lists: seq<seq<string>>, s: string)
    ensures s in Flatten(lists) <==> exists i :: 0 <= i < |lists| && s in lists[i]
  {
    if lists != [] {
      FlattenContains(lists[1..], s);
      if s in Flatten(lists[1..]) {
        var i :| 0 <= i < |lists[1..]| && s in lists[1..][i];
        assert s in lists[i + 1];
      }
      if exists i :: 0 <= i < |lists| && s in lists[i] {
        var i :| 0 <= i < |lists| && s in lists[i];
        if i > 0 {
          assert lists[1..][i - 1] == lists[i];
        }
      }
    }
  }

  /** `new Set(desiredTelLinks.flatMap(generateAllowedFormats))`: a string
      is accepted exactly when it is a format of one of the expected
      numbers. */
  function AllowedVariations(desired: seq<string>): (allowed: set<string>)
    ensures forall s :: s in allowed <==>
              exists i :: 0 <= i < |desired| && s in GenerateAllowedFormats(desired[i])
  {
    var lists := seq(|desired|, i requires 0 <= i < |desired| => GenerateAllowedFormats(desired[i]));
    assert forall s :: s in Flatten(lists) <==>
             exists i :: 0 <= i < |lists| && s in lists[i] by {
      forall s ensures s in Flatten(lists) <==> exists i :: 0 <= i < |lists| && s in lists[i] {
        FlattenContains(lists, s);
      }
    }
    assert |lists| == |desired|;
    assert forall i :: 0 <= i < |lists| ==> lists[i] == GenerateAllowedFormats(desired[i]);
    set s | s in Flatten(lists)
  }

  /** Every accepted string has the digits of one of the expected numbers,
      and those digits start with `1`. */
  lemma AllowedHaveExpectedDigits(desired: seq<string>, s: string)
    requires s in AllowedVariations(desired)
    ensures exists i :: 0 <= i < |desired| && Digits(s) == Digits(desired[i])
                        && StartsWith(Digits(desired[i]), "1")
  {
    var i :| 0 <= i < |desired| && s in GenerateAllowedFormats(desired[i]);
    var formats := GenerateAllowedFormats(desired[i]);
    var j :| 0 <= j < |formats| && formats[j] == s;
  }

  // ---------------------------------------------------------------------
  // The extracted number
  // ---------------------------------------------------------------------

  /** `link.href.replace('tel:', '').trim()`: the first `tel:` removed,
      wherever it is, then the surrounding white space. */
  function ExtractNumber(href: string): (number: string)
    ensures number == [] || (!IsWhiteSpace(number[0]) && !IsWhiteSpace(number[|number| - 1]))
  {
    Trim(ReplaceFirst(href, "tel:", ""))
  }

  /** A `tel:` URL whose number has no surrounding white space yields that
      number. */
  lemma TelPrefixRemoved(number: string)
    requires number == [] || (!IsWhiteSpace(number[0]) && !IsWhiteSpace(number[|number| - 1]))
    ensures ExtractNumber("tel:" + number) == number
  {
    var href := "tel:" + number;
    assert ReplaceFirst(href, "tel:", "") == number by {
      assert StartsWith(href, "tel:") && href[4..] == number;
      assert "" + number == number;
    }
    TrimUnchanged(number);
  }

  /** Only the first `tel:` is removed: `tel:tel:+18888888888` yields
      `tel:+18888888888`. */
  lemma OnlyFirstTelRemoved(number: string)
    requires number == [] || !IsWhiteSpace(number[|number| - 1])
    ensures ExtractNumber("tel:tel:" + number) == "tel:" + number
  {
    var href := "tel:tel:" + number;
    var rest := "tel:" + number;
    assert ReplaceFirst(href, "tel:", "") == rest by {
      assert StartsWith(href, "tel:") && href[4..] == rest;
      assert "" + rest == rest;
    }
    assert Trim(rest) == rest by {
      assert rest[0] == 't';
      assert rest[|rest| - 1] == (if number == [] then ':' else number[|number| - 1]);
      TrimUnchanged(rest);
    }
  }

  /** The characters a format is made of are not white space. */
  lemma FormatCharNotWhiteSpace(c: char)
    requires IsDigit(c) || c == '+' || c == '-'
    ensures !IsWhiteSpace(c)
  {
  }

  /** A format starts with `+` or with the country code `1`. */
  lemma FormatStart(phone: string, i: nat)
    requires i < |GenerateAllowedFormats(phone)|
    ensures var f := GenerateAllowedFormats(phone)[i];
            f != [] && (f[0] == '+' || f[0] == '1')
  {
    var d := Digits(phone);
    var dashed := Join(Groups(d), '-');
    assert GenerateAllowedFormats(phone) == ["+" + d, "+1-" + dashed, "1-" + dashed];
  }

  /** The dashed groups of a digit string end in a digit, or in a dash
      when the last group is empty. */
  lemma DashedGroupsEnd(d: string)
    requires AllDigits(d)
    ensures var dashed := Join(Groups(d), '-');
            dashed != [] && (dashed[|dashed| - 1] == '-' || IsDigit(dashed[|dashed| - 1]))
  {
    var g := Groups(d);
    assert AllDigits(g[2]) by {
      assert forall k :: 0 <= k < |g[2]| ==> g[2][k] == d[Min(7, |d|) + k];
    }
    assert g == [g[0], g[1], g[2]];
    DashedEnd(g[0], g[1], g[2]);
  }

  /** A format ends in a digit, or in a dash when its last group is
      empty. */
  lemma FormatEnd(phone: string, i: nat)
    requires i < |GenerateAllowedFormats(phone)|
    ensures var f := GenerateAllowedFormats(phone)[i];
            f != [] && (f[|f| - 1] == '-' || IsDigit(f[|f| - 1]))
  {
    var d := Digits(phone);
    var f := GenerateAllowedFormats(phone)[i];
    if i == 0 {
      assert f == "+" + d;
      assert f[|f| - 1] == d[|d| - 1];
    } else {
      var dashed := Join(Groups(d), '-');
      DashedGroupsEnd(d);
      assert f == (if i == 1 then "+1-" else "1-") + dashed;
      assert f[|f| - 1] == dashed[|dashed| - 1];
    }
  }

  /** Every accepted format, written after `tel:`, is extracted intact:
      a format starts with `+` or `1` and ends with a digit or a dash. */
  lemma AllowedFormatsExtractIntact(phone: string, i: nat)
    requires i < |GenerateAllowedFormats(phone)|
    ensures ExtractNumber("tel:" + GenerateAllowedFormats(phone)[i]) == GenerateAllowedFormats(phone)[i]
  {
    var f := GenerateAllowedFormats(phone)[i];
    FormatStart(phone, i);
    FormatEnd(phone, i);
    FormatCharNotWhiteSpace(f[0]);
    FormatCharNotWhiteSpace(f[|f| - 1]);
    TelPrefixRemoved(f);
  }

  // ---------------------------------------------------------------------
  // The validation loop and the verdict
  // ---------------------------------------------------------------------

  /** One entry of the `errors` array: an anchor on page `url` whose
      extracted number is not accepted, or the single "no links" error. */
  datatype ValidationError = InvalidLink(url: string, link: TelLink) | NoTelLinks

  /** The number read out of the anchor's `href` is one of the accepted
      strings.  The validation below takes the reading function as the
      parameter `extract`; the test passes `ExtractNumber`, and nothing the
      error collection promises depends on how the number is read. */
  predicate Accepted(link: TelLink, allowed: set<string>, extract: string -> string)
  {
    extract(link.href) in allowed
  }

  /** The errors for the anchors of one page, in order. */
  function PageErrors(url: string, links: seq<TelLink>, allowed: set<string>,
                      extract: string -> string): seq<ValidationError>
  {
    if links == [] then []
    else
      PageErrors(url, links[..|links| - 1], allowed, extract)
      + (if Accepted(links[|links| - 1], allowed, extract) then [] else [InvalidLink(url, links[|links| - 1])])
  }

  /** The errors for the pages `keys`, in iteration order. */
  function MapErrors(keys: seq<string>, entries: map<string, seq<TelLink>>,
                     allowed: set<string>, extract: string -> string): seq<ValidationError>
    requires forall k :: k in keys ==> k in entries
  {
    if keys == [] then []
    else
      MapErrors(keys[..|keys| - 1], entries, allowed, extract)
      + PageErrors(keys[|keys| - 1], entries[keys[|keys| - 1]], allowed, extract)
  }

  /** The `errors` array once the check has run over `found`. */
  function Errors(found: TelLinkMap, allowed: set<string>, extract: string -> string): seq<ValidationError>
    requires forall k :: k in found.keys ==> k in found.entries
  {
    if |found.keys| > 0 then MapErrors(found.keys, found.entries, allowed, extract) else [NoTelLinks]
  }

  /** The check loop over the map: for each page in insertion order, the
      inner loop below; a map with no entry records one error. */
  method ValidateTelLinks(found: TelLinkMap, allowed: set<string>, extract: string -> string)
    returns (errors: seq<ValidationError>)
    requires forall k :: k in found.keys ==> k in found.entries
    ensures errors == Errors(found, allowed, extract)
  {
    errors := [];
    if |found.keys| > 0 {
      var i := 0;
      while i < |found.keys|
        invariant 0 <= i <= |found.keys|
        invariant errors == MapErrors(found.keys[..i], found.entries, allowed, extract)
      {
        var url := found.keys[i];
        errors := ValidatePage(errors, url, found.entries[url], allowed, extract);
        MapErrorsStep(found.keys, found.entries, i, allowed, extract);
        i := i + 1;
      }
      assert found.keys[..i] == found.keys;
    } else {
      errors := errors + [NoTelLinks];
    }
  }

  /** The inner loop for one page: for each anchor in document order,
      extract the number and append an error when it is not accepted. */
  method ValidatePage(errors0: seq<ValidationError>, url: string, links: seq<TelLink>,
                      allowed: set<string>, extract: string -> string)
    returns (errors: seq<ValidationError>)
    ensures errors == errors0 + PageErrors(url, links, allowed, extract)
  {
    errors := errors0;
    var j := 0;
    while j < |links|
      invariant 0 <= j <= |links|
      invariant errors == errors0 + PageErrors(url, links[..j], allowed, extract)
    {
      var extractedNumber := extract(links[j].href);
      var isValid := extractedNumber in allowed;
      PageErrorsStep(errors0, errors, url, links, j, allowed, extract, isValid);
      if !isValid {
        errors := errors + [InvalidLink(url, links[j])];
      }
      j := j + 1;
    }
    assert links[..j] == links;
  }

  /** One more anchor checked: its error, if any, goes at the end. */
  lemma PageErrorsStep(errors0: seq<ValidationError>, errors: seq<ValidationError>, url: string,
                       links: seq<TelLink>, j: nat, allowed: set<string>,
                       extract: string -> string, isValid: bool)
    requires j < |links|
    requires errors == errors0 + PageErrors(url, links[..j], allowed, extract)
    requires isValid == Accepted(links[j], allowed, extract)
    ensures (if isValid then errors else errors + [InvalidLink(url, links[j])])
            == errors0 + PageErrors(url, links[..j + 1], allowed, extract)
  {
    var page := PageErrors(url, links[..j], allowed, extract);
    var next := PageErrors(url, links[..j + 1], allowed, extract);
    var e := InvalidLink(url, links[j]);
    assert next == page + (if isValid then [] else [e]) by {
      assert links[..j + 1][..j] == links[..j];
      assert links[..j + 1][j] == links[j];
    }
    if isValid {
      assert next == page;
    } else {
      assert (errors0 + page) + [e] == errors0 + (page + [e]);
    }
  }

  /** One more page checked: its errors go at the end. */
  lemma MapErrorsStep(keys: seq<string>, entries: map<string, seq<TelLink>>, i: nat,
                      allowed: set<string>, extract: string -> string)
    requires forall k :: k in keys ==> k in entries
    requires i < |keys|
    ensures MapErrors(keys[..i + 1], entries, allowed, extract)
            == MapErrors(keys[..i], entries, allowed, extract)
               + PageErrors(keys[i], entries[keys[i]], allowed, extract)
  {
    assert keys[..i + 1][..i] == keys[..i];
  }

  /** The errors for one page are exactly its rejected anchors. */
  lemma {:induction false} PageErrorsAreRejections(url: string, links: seq<TelLink>, allowed: set<string>,
                                                   extract: string -> string)
    ensures forall e :: e in PageErrors(url, links, allowed, extract) <==>
              exists l :: l in links && !Accepted(l, allowed, extract) && e == InvalidLink(url, l)
  {
    if links != [] {
      var init := links[..|links| - 1];
      PageErrorsAreRejections(url, init, allowed, extract);
      assert links == init + [links[|links| - 1]];
    }
  }

  /** The errors for a sequence of pages are exactly the rejected anchors of
      those pages, each with its page. */
  lemma {:induction false} MapErrorsAreRejections(keys: seq<string>, entries: map<string, seq<TelLink>>,
                                                  allowed: set<string>, extract: string -> string)
    requires forall k :: k in keys ==> k in entries
    ensures forall e :: e in MapErrors(keys, entries, allowed, extract) <==>
              exists k, l :: k in keys && l in entries[k] && !Accepted(l, allowed, extract)
                             && e == InvalidLink(k, l)
  {
    if keys != [] {
      var init := keys[..|keys| - 1];
      var last := keys[|keys| - 1];
      MapErrorsAreRejections(init, entries, allowed, extract);
      PageErrorsAreRejections(last, entries[last], allowed, extract);
      assert keys == init + [last];
    }
  }

  /** The number of anchors whose extracted number is not accepted. */
  function Rejections(links: seq<TelLink>, allowed: set<string>, extract: string -> string): nat
  {
    if links == [] then 0
    else (if Accepted(links[0], allowed, extract) then 0 else 1) + Rejections(links[1..], allowed, extract)
  }

  lemma {:induction false} RejectionsAppend(links: seq<TelLink>, link: TelLink, allowed: set<string>,
                                            extract: string -> string)
    ensures Rejections(links + [link], allowed, extract)
            == Rejections(links, allowed, extract) + (if Accepted(link, allowed, extract) then 0 else 1)
  {
    if links != [] {
      assert (links + [link])[1..] == links[1..] + [link];
      RejectionsAppend(links[1..], link, allowed, extract);
    } else {
      assert (links + [link])[1..] == [];
    }
  }

  /** Exactly one error per rejected anchor: a page contributes as many
      errors as it has anchors that fail, duplicates included. */
  lemma {:induction false} OneErrorPerRejection(url: string, links: seq<TelLink>, allowed: set<string>,
                                                extract: string -> string)
    ensures |PageErrors(url, links, allowed, extract)| == Rejections(links, allowed, extract)
  {
    if links != [] {
      var init := links[..|links| - 1];
      OneErrorPerRejection(url, init, allowed, extract);
      assert links == init + [links[|links| - 1]];
      RejectionsAppend(init, links[|links| - 1], allowed, extract);
    }
  }

  /** The verdict `expect(errors.length).toBe(0)`: the check passes exactly
      when the map has an entry and every anchor in it is accepted; an
      empty map fails with the one "no links" error. */
  lemma ErrorsEmptyIff(found: TelLinkMap, allowed: set<string>, extract: string -> string)
    requires forall k :: k in found.keys ==> k in found.entries
    ensures Errors(found, allowed, extract) == [] <==>
              |found.keys| > 0
              && forall k, l :: k in found.keys && l in found.entries[k] ==> Accepted(l, allowed, extract)
    ensures |found.keys| == 0 ==> Errors(found, allowed, extract) == [NoTelLinks]
  {
    if |found.keys| > 0 {
      var errors := MapErrors(found.keys, found.entries, allowed, extract);
      MapErrorsAreRejections(found.keys, found.entries, allowed, extract);
      if errors != [] {
        assert errors[0] in errors;
        var k, l :| k in found.keys && l in found.entries[k] && !Accepted(l, allowed, extract)
                    && errors[0] == InvalidLink(k, l);
      } else {
        forall k, l | k in found.keys && l in found.entries[k]
          ensures Accepted(l, allowed, extract)
        {
          assert InvalidLink(k, l) !in errors;
        }
      }
    }
  }

  /** The whole test: crawl the site, build the accepted strings from the
      expected numbers, check every anchor found, and pass when no error was
      recorded.  An exception out of `crawlSite` fails the test.  `checked`
      is the sequence of keys handed to `extractTelLinks`, in order. */
  method TelLinkTest(cfg: CrawlConfig, ghost universe: set<string>, desired: seq<string>)
    returns (passed: bool, ghost checked: seq<string>)
    requires cfg.topLevelOnly ==> Closed(cfg, universe)
    // outside top-level mode nothing is crawled, so the test always fails
    ensures !cfg.topLevelOnly ==> !passed && checked == []
    // in top-level mode the pages checked are those of `crawl(baseUrl)`
    ensures cfg.topLevelOnly ==> checked == CrawlTrace(cfg, universe, [], cfg.base).checked
    ensures passed <==>
              cfg.topLevelOnly
              && (forall k :: k in checked ==> !PageFails(cfg, k))
              && (exists k :: k in checked && cfg.site.telAnchors(k) != [])
              && (forall k, l :: k in checked && l in cfg.site.telAnchors(k) ==>
                    Accepted(l, AllowedVariations(desired), ExtractNumber))
  {
    var outcome;
    outcome, checked := CrawlSite(cfg, universe);
    if outcome.Failed? {
      return false, checked;
    }
    var telLinks := outcome.links;
    var validPhoneVariations := AllowedVariations(desired);
    var errors := ValidateTelLinks(telLinks, validPhoneVariations, ExtractNumber);
    passed := |errors| == 0;
    ErrorsEmptyIff(telLinks, validPhoneVariations, ExtractNumber);
    if cfg.topLevelOnly {
      forall k | k in checked
        ensures !PageFails(cfg, k)
      {
        if !cfg.homepageOnly {
          assert LinksCovered(cfg, k, Elems(checked));
        }
      }
      if exists k :: k in checked && cfg.site.telAnchors(k) != [] {
        var k :| k in checked && cfg.site.telAnchors(k) != [];
        assert k in telLinks.entries;
        assert |telLinks.keys| > 0;
      }
    }
  }
}
