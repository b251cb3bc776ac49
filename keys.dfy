/** The metric-name normaliser: `re.sub(r'\s+|/|[^a-zA-Z_\-0-9\.]', '_', raw)`.
    The alternation is tried left to right at each position, so a run of
    whitespace becomes one `_` while every other disallowed character
    (the `/` included) becomes one `_` of its own. */
module Keys {

  /** The characters a normalised key may hold: `[A-Za-z0-9_.-]`. */
  predicate IsKeyChar(ch: char)
  {
    ('a' <= ch <= 'z') || ('A' <= ch <= 'Z') || ('0' <= ch <= '9') ||
    ch == '_' || ch == '-' || ch == '.'
  }

  /** `\s` of a Python 2 byte-string pattern: space, \t, \n, \v, \f, \r. */
  predicate IsSpace(ch: char)
  {
    ch == ' ' || ch == '\t' || ch == '\n' || ch == '\r' || ch as int == 0x0B || ch as int == 0x0C
  }

  predicate IsKey(s: string)
  {
    forall i :: 0 <= i < |s| ==> IsKeyChar(s[i])
  }

  /** `s` without its leading run of whitespace. */
  function DropSpaces(s: string): (r: string)
    ensures |r| <= |s|
    ensures r == [] || !IsSpace(r[0])
  {
    if s != [] && IsSpace(s[0]) then DropSpaces(s[1..]) else s
  }

  function Normalize(raw: string): (key: string)
    ensures IsKey(key)
    ensures |key| <= |raw|
    decreases |raw|
  {
    if raw == [] then []
    else if IsSpace(raw[0]) then "_" + Normalize(DropSpaces(raw[1..]))
    else if IsKeyChar(raw[0]) then [raw[0]] + Normalize(raw[1..])
    else "_" + Normalize(raw[1..])
  }

  /** A name that is already a key is left alone. */
  lemma {:induction false} NormalizeKeepsKeys(s: string)
    requires IsKey(s)
    ensures Normalize(s) == s
  {
    if s != [] {
      assert !IsSpace(s[0]);
      NormalizeKeepsKeys(s[1..]);
    }
  }

  /** Normalising is idempotent, and a name is unchanged by it exactly when
      it is already a key. */
  lemma NormalizeIdempotent(raw: string)
    ensures Normalize(Normalize(raw)) == Normalize(raw)
    ensures Normalize(raw) == raw <==> IsKey(raw)
  {
    NormalizeKeepsKeys(Normalize(raw));
    if IsKey(raw) {
      NormalizeKeepsKeys(raw);
    }
  }

  /** A run of whitespace becomes one `_`, a `/` becomes one `_`, and the
      rest of the name is normalised on its own. */
  lemma NormalizeSeparators(w: string, rest: string)
    requires w != [] && forall i :: 0 <= i < |w| ==> IsSpace(w[i])
    requires rest == [] || !IsSpace(rest[0])
    ensures Normalize(w + rest) == "_" + Normalize(rest)
    ensures Normalize("/" + rest) == "_" + Normalize(rest)
  {
    assert Normalize(w + rest) == "_" + Normalize(rest) by {
      var s := w + rest;
      assert s[0] == w[0] && IsSpace(s[0]);
      assert s[1..] == w[1..] + rest;
      DropLeadingSpaces(w[1..], rest);
    }
    assert Normalize("/" + rest) == "_" + Normalize(rest) by {
      var s := "/" + rest;
      assert s[0] == '/' && !IsSpace(s[0]) && !IsKeyChar(s[0]);
      assert s[1..] == rest;
    }
  }

  /** Any other disallowed character becomes its own `_`. */
  lemma OtherCharIsOwnUnderscore(ch: char, rest: string)
    requires !IsSpace(ch) && !IsKeyChar(ch)
    ensures Normalize([ch] + rest) == "_" + Normalize(rest)
  {
    assert ([ch] + rest)[1..] == rest;
  }

  /** An allowed character is kept where it stands. */
  lemma KeyCharKept(ch: char, rest: string)
    requires IsKeyChar(ch)
    ensures Normalize([ch] + rest) == [ch] + Normalize(rest)
  {
    assert ([ch] + rest)[1..] == rest;
  }

  lemma {:induction false} DropLeadingSpaces(w: string, rest: string)
    requires forall i :: 0 <= i < |w| ==> IsSpace(w[i])
    requires rest == [] || !IsSpace(rest[0])
    ensures DropSpaces(w + rest) == rest
  {
    if w != [] {
      assert (w + rest)[1..] == w[1..] + rest;
      DropLeadingSpaces(w[1..], rest);
    } else {
      assert w + rest == rest;
    }
  }

  /** The renaming of a sample name with mixed separators. */
  lemma NormalizeExample()
    ensures Normalize("a \t/b$c") == "a__b_c"
  {
    var s := "a \t/b$c";
    assert s[1..] == " \t/b$c";
    assert DropSpaces(s[2..]) == "/b$c" by {
      assert s[2..] == "\t/b$c";
      assert s[2..][1..] == "/b$c";
    }
    assert Normalize("/b$c") == "_b_c" by {
      assert "/b$c"[1..] == "b$c";
      assert "b$c"[1..] == "$c";
      assert "$c"[1..] == "c";
      assert "c"[1..] == "";
    }
  }
}
