/** Which texts Python's library calls accept, written out: blank characters, and the numbers that `int` reads. */
module TextForms {
  import opened Text

  /** The characters for which `str.isspace` holds. */
  lemma BlanksAre(c: char)
    ensures IsBlank(c) <==>
              c in {'\U{09}', '\U{0a}', '\U{0b}', '\U{0c}', '\U{0d}', '\U{1c}', '\U{1d}', '\U{1e}', '\U{1f}', '\U{20}',
                    '\U{85}', '\U{a0}', '\U{1680}', '\U{2000}', '\U{2001}', '\U{2002}', '\U{2003}', '\U{2004}',
                    '\U{2005}', '\U{2006}', '\U{2007}', '\U{2008}', '\U{2009}', '\U{200a}', '\U{2028}', '\U{2029}',
                    '\U{202f}', '\U{205f}', '\U{3000}'}
  {
  }

  /** Digits, and underscores only between two of them. */
  predicate IsNumeral(s: string)
  {
    && s != "" && s[0] in "0123456789" && s[|s| - 1] in "0123456789"
    && forall i | 0 <= i < |s| - 1 && s[i] == '_' :: s[i + 1] in "0123456789"
  }

  predicate DigitsAndUnderscores(s: string)
  {
    forall c | c in s :: c in "0123456789" || c == '_'
  }

  lemma DigitsAre(c: char)
    ensures IsDigit(c) <==> c in "0123456789"
  {
    assert IsDigit(c) ==> "0123456789"[c as int - 48] == c;
  }

  /** `int` reads exactly the numerals. */
  lemma {:induction false} ReadDigitsIff(s: string)
    ensures ReadDigits(s).Some? <==> IsNumeral(s) && DigitsAndUnderscores(s)
    decreases |s|
  {
    if s != "" {
      var n := |s| - 1;
      DigitsAre(s[n]);
      DigitsAre(s[0]);
      var rest := s[..n];
      if IsDigit(s[n]) && rest != "" {
        var init := if rest[n - 1] == '_' then rest[..n - 1] else rest;
        ReadDigitsIff(init);
        InitIsNumeral(s, init);
      }
    }
  }

  lemma InitIsNumeral(s: string, init: string)
    requires |s| > 1 && s[|s| - 1] in "0123456789"
    requires init == if s[|s| - 2] == '_' then s[..|s| - 2] else s[..|s| - 1]
    ensures IsNumeral(s) && DigitsAndUnderscores(s) <==> IsNumeral(init) && DigitsAndUnderscores(init)
  {
    var n := |s| - 1;
    assert s == s[..n] + [s[n]];
    UnderscoreIsNoDigit();
    if s[n - 1] == '_' {
      assert s[..n] == init + ['_'];
      if IsNumeral(init) {
        forall i | 0 <= i < |s| - 1 && s[i] == '_' ensures s[i + 1] in "0123456789" {
          assert i < n - 2 ==> init[i] == '_' && init[i + 1] == s[i + 1];
        }
      }
      if IsNumeral(s) && n >= 2 {
        assert s[n - 2] in s;
        forall i | 0 <= i < |init| - 1 && init[i] == '_' ensures init[i + 1] in "0123456789" {
          assert s[i] == '_' && s[i + 1] == init[i + 1];
        }
      }
    } else {
      if IsNumeral(init) {
        forall i | 0 <= i < |s| - 1 && s[i] == '_' ensures s[i + 1] in "0123456789" {
          assert i < n - 1 ==> init[i] == '_' && init[i + 1] == s[i + 1];
        }
      }
      if IsNumeral(s) {
        assert s[n - 1] in s;
        forall i | 0 <= i < |init| - 1 && init[i] == '_' ensures init[i + 1] in "0123456789" {
          assert s[i] == '_' && s[i + 1] == init[i + 1];
        }
      }
    }
  }

  lemma UnderscoreIsNoDigit()
    ensures '_' !in "0123456789"
  {
  }

  function WithoutUnderscores(s: string): string
  {
    if s == "" then "" else WithoutUnderscores(s[..|s| - 1]) + if s[|s| - 1] == '_' then "" else [s[|s| - 1]]
  }

  /** Underscores do not change the number. */
  lemma {:induction false} UnderscoresIgnored(s: string)
    requires ReadDigits(s).Some?
    ensures WithoutUnderscores(s) != "" && WithoutUnderscores(s)[|WithoutUnderscores(s)| - 1] != '_'
    ensures ReadDigits(WithoutUnderscores(s)) == ReadDigits(s)
    decreases |s|
  {
    var n := |s| - 1;
    var rest := s[..n];
    var w := WithoutUnderscores(s);
    assert w == WithoutUnderscores(rest) + [s[n]];
    if rest != "" {
      var init := if rest[n - 1] == '_' then rest[..n - 1] else rest;
      assert WithoutUnderscores(rest) == WithoutUnderscores(init);
      UnderscoresIgnored(init);
      assert w[..|w| - 1] == WithoutUnderscores(init);
    }
  }

  /** A sign and blanks around do not matter either: `int` of a padded, signed number. */
  lemma PaddedNumber(a: string, n: nat, b: string)
    requires AllBlank(a) && AllBlank(b)
    ensures ReadInt(a + NatText(n) + b) == Some(n)
    ensures ReadInt(a + ("+" + NatText(n)) + b) == Some(n)
    ensures ReadInt(a + ("-" + NatText(n)) + b) == Some(-(n as int))
  {
    hide Strip, ReadDigits, NatText;
    var s := NatText(n);
    ReadNatText(n);
    assert s[0] in s && s[|s| - 1] in s;
    SignsAreTight();
    forall x | x in {s, "+" + s, "-" + s} ensures Strip(a + x + b) == x {
      assert x[|x| - 1] == s[|s| - 1];
      StripPadded(a, x, b);
    }
    assert ("+" + s)[1..] == s && ("-" + s)[1..] == s;
  }

  lemma SignsAreTight()
    ensures !IsBlank('+') && !IsBlank('-') && forall c :: IsDigit(c) ==> !IsBlank(c)
  {
  }

  // ----- writing numbers and letters -----

  /** A number is written in decimal digits, the last one apart from the rest, without leading zeros. */
  lemma DecimalText(n: nat, d: nat)
    requires d < 10
    ensures NatText(d) == ["0123456789"[d]]
    ensures n > 0 ==> NatText(10 * n + d) == NatText(n) + ["0123456789"[d]]
    ensures IntText(n) == NatText(n) && (n > 0 ==> IntText(-(n as int)) == "-" + NatText(n))
  {
    assert "0123456789"[d] == (d + 48) as char;
    assert (10 * n + d) / 10 == n && (10 * n + d) % 10 == d;
  }

  /** `lower` and `upper` change exactly the letters of the other case, each to its partner. */
  lemma CaseIs(s: string, i: nat)
    requires i < |s|
    ensures 'A' <= s[i] <= 'Z' ==> Lower(s)[i] == "abcdefghijklmnopqrstuvwxyz"[s[i] as int - 65] && Upper(s)[i] == s[i]
    ensures 'a' <= s[i] <= 'z' ==> Upper(s)[i] == "ABCDEFGHIJKLMNOPQRSTUVWXYZ"[s[i] as int - 97] && Lower(s)[i] == s[i]
    ensures !('A' <= s[i] <= 'Z') && !('a' <= s[i] <= 'z') ==> Lower(s)[i] == s[i] == Upper(s)[i]
  {
    LettersAre(s[i]);
  }

  lemma LettersAre(c: char)
    ensures 'A' <= c <= 'Z' ==> "abcdefghijklmnopqrstuvwxyz"[c as int - 65] as int == c as int + 32
    ensures 'a' <= c <= 'z' ==> "ABCDEFGHIJKLMNOPQRSTUVWXYZ"[c as int - 97] as int == c as int - 32
  {
  }
}
