/** How the scanners of odps/types.py and odps/utils.py pass over the texts inside a type: quoted and
    plain names, fields split at their colon, and characters that only extend a token. */
module TypeTokens {
  import opened Text
  import opened Backquotes
  import opened TypeStrings
  import opened TypeSpelling

  // ----- text that the scanners pass over -----

  /** Read from quote state q, no character of `special` stands outside backquotes. */
  predicate Skips(w: string, q: bool, special: string)
  {
    w != [] ==>
      if w[0] == '`' then Skips(w[1..], !q, special)
      else (q || w[0] !in special) && Skips(w[1..], q, special)
  }

  function QuoteAfter(w: string, q: bool): bool
  {
    if w == [] then q else QuoteAfter(w[1..], if w[0] == '`' then !q else q)
  }

  const BRACKETS := "<(>),"

  lemma {:induction false} SkipsAppend(a: string, b: string, q: bool, special: string)
    ensures QuoteAfter(a + b, q) == QuoteAfter(b, QuoteAfter(a, q))
    ensures Skips(a + b, q, special) <==> Skips(a, q, special) && Skips(b, QuoteAfter(a, q), special)
  {
    if a == [] {
      assert a + b == b;
    } else {
      assert (a + b)[1..] == a[1..] + b;
      SkipsAppend(a[1..], b, if a[0] == '`' then !q else q, special);
    }
  }

  lemma {:induction false} PlainSkips(w: string, q: bool, special: string)
    requires forall c | c in w :: c != '`' && c !in special
    ensures Skips(w, q, special) && QuoteAfter(w, q) == q
  {
    if w != [] {
      assert w[0] in w;
      forall c | c in w[1..] ensures c in w {
      }
      PlainSkips(w[1..], q, special);
    }
  }

  lemma {:induction false} DoubledSkips(s: string, special: string)
    ensures Skips(DoubleBackquotes(s), true, special) && QuoteAfter(DoubleBackquotes(s), true)
  {
    if s != [] {
      DoubledSkips(s[1..], special);
      var d, rest := DoubleBackquotes(s), DoubleBackquotes(s[1..]);
      if s[0] == '`' {
        assert d[1..][1..] == rest && d[1] == '`';
      } else {
        assert d[1..] == rest;
      }
    }
  }

  /** A field name is passed over whole, whatever it contains. */
  lemma NameSkips(name: string, bare: bool, special: string)
    requires forall c | c in special :: c in "`<>(),:"
    ensures Skips(NameText(name, bare), false, special) && !QuoteAfter(NameText(name, bare), false)
  {
    if bare && PlainName(name) {
      PlainSkips(name, false, special);
    } else {
      var q := BackquoteString(name);
      DoubledSkips(name, special);
      assert q[1..] == DoubleBackquotes(name) + "`";
      SkipsAppend(DoubleBackquotes(name), "`", true, special);
      assert "`"[1..] == "";
    }
  }

  lemma NameRecovered(a: string, name: string, bare: bool, b: string)
    requires AllBlank(a) && AllBlank(b)
    ensures StripBackquotes(a + NameText(name, bare) + b) == name
  {
    if bare && PlainName(name) {
      StripPadded(a, name, b);
      assert name != [] ==> name[0] in name;
    } else {
      StripBackquotesInverts(a, name, b);
    }
  }

  // ----- splitting a field text at its colon -----

  lemma {:induction false} PiecesSkip(s: string, pos: nat, w: string, cur: string, q: bool)
    requires pos + |w| <= |s| && s[pos..pos + |w|] == w && Skips(w, q, ":")
    ensures PiecesFrom(s, ":", pos, cur, q, Some(1))
         == PiecesFrom(s, ":", pos + |w|, cur + w, QuoteAfter(w, q), Some(1))
    decreases |w|
  {
    if w == [] {
      assert cur + w == cur;
    } else {
      assert s[pos] == w[0];
      assert s[pos + 1..pos + 1 + |w[1..]|] == w[1..];
      assert cur + [w[0]] + w[1..] == cur + w;
      if s[pos] != '`' && !q {
        assert Window(s, pos, 1) == [w[0]];
      }
      PiecesSkip(s, pos + 1, w[1..], cur + [w[0]], if w[0] == '`' then !q else q);
    }
  }

  lemma SplitUnlabelled(w: string)
    requires Skips(w, false, ":")
    ensures SplitStructKv(w) == [Strip(w)]
  {
    PiecesSkip(w, 0, w, "", false);
    assert "" + w == w;
  }

  lemma PiecesLabelled(k: string, v: string)
    requires Skips(k, false, ":") && !QuoteAfter(k, false)
    ensures PiecesFrom(k + ":" + v, ":", 0, "", false, Some(1)) == [k, v]
  {
    var s := k + ":" + v;
    assert s[0..|k|] == k;
    PiecesSkip(s, 0, k, "", false);
    assert "" + k == k;
    assert Window(s, |k|, 1) == ":";
    NoSplit(s, |k| + 1, "", false);
    assert "" + s[|k| + 1..] == v;
  }

  lemma SplitLabelled(k: string, v: string)
    requires Skips(k, false, ":") && !QuoteAfter(k, false)
    ensures SplitStructKv(k + ":" + v) == [StripBackquotes(k), Strip(v)]
  {
    hide PiecesFrom, StripBackquotes, Strip, Skips, QuoteAfter;
    PiecesLabelled(k, v);
  }

  // ----- feeding the scanner -----

  lemma {:induction false} FeedAppend(st: Scan, a: string, b: string, n: nat)
    requires Valid(st, n) && |st.token| + |a| + |b| <= n
    ensures Feed(st, a + b, n) == match Feed(st, a, n)
                                  case Raise(e) => Raise(e)
                                  case Ok(st1) => Feed(st1, b, n)
    decreases |a|
  {
    hide Step;
    if a == [] {
      assert a + b == b;
    } else {
      assert (a + b)[0] == a[0] && (a + b)[1..] == a[1..] + b;
      match Step(st, a[0], n)
      case Raise(e) =>
      case Ok(st1) => FeedAppend(st1, a[1..], b, n);
    }
  }

  lemma {:induction false} FeedSkips(st: Scan, w: string, n: nat)
    requires Valid(st, n) && |st.token| + |w| <= n && Skips(w, st.quoted, BRACKETS)
    ensures Feed(st, w, n) == Ok(st.(token := st.token + w, quoted := QuoteAfter(w, st.quoted)))
    decreases |w|
  {
    hide CloseGroup, Strip;
    if w == [] {
      assert st.token + w == st.token;
    } else {
      var st1 := st.(token := st.token + [w[0]], quoted := if w[0] == '`' then !st.quoted else st.quoted);
      assert Step(st, w[0], n) == Ok(st1);
      FeedSkips(st1, w[1..], n);
      assert st.token + [w[0]] + w[1..] == st.token + w;
    }
  }
}
