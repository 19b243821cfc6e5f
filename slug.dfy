/** `generateKey` (app.js:224-226): the key a display name is stored under,
    `name.toLowerCase().replace(/[^a-z0-9]+/g, '_').replace(/^_|_$/g, '')`. */
module Slug {
  import opened Text

  /** The characters the second regular expression leaves alone. */
  predicate IsKeyChar(c: char)
  {
    'a' <= c <= 'z' || '0' <= c <= '9'
  }

  /** A well-formed key: only a-z, 0-9 and `_`, never two `_` in a row, and no `_` at
      either end. */
  predicate IsSlug(s: string)
  {
    (forall i :: 0 <= i < |s| ==> IsKeyChar(s[i]) || s[i] == '_')
    && (forall i :: 0 <= i < |s| - 1 ==> !(s[i] == '_' && s[i + 1] == '_'))
    && (s != [] ==> s[0] != '_' && s[|s| - 1] != '_')
  }

  /** The rest of `s` after its leading run of non-key characters. */
  function DropRun(s: string): (r: string)
    ensures |r| <= |s| && r == s[|s| - |r|..]
    ensures r == [] || IsKeyChar(r[0])
  {
    if s != [] && !IsKeyChar(s[0]) then
      var r := DropRun(s[1..]);
      assert s[1..][|s| - 1 - |r|..] == s[|s| - |r|..];
      r
    else s
  }

  /** `replace(/[^a-z0-9]+/g, '_')`: every maximal run of non-key characters becomes one
      `_`. The result has only key characters and `_`, no `__`, and starts with `_` exactly
      when the input starts with a non-key character. */
  function Collapse(s: string): (r: string)
    ensures (r == []) == (s == [])
    ensures r != [] ==> (r[0] == '_' <==> !IsKeyChar(s[0]))
    ensures forall i :: 0 <= i < |r| ==> IsKeyChar(r[i]) || r[i] == '_'
    ensures forall i :: 0 <= i < |r| - 1 ==> !(r[i] == '_' && r[i + 1] == '_')
    decreases |s|
  {
    if s == [] then []
    else if IsKeyChar(s[0]) then [s[0]] + Collapse(s[1..])
    else "_" + Collapse(DropRun(s[1..]))
  }

  /** Each character on its own: a key character stays, any other becomes `_`. */
  function Mark(s: string): (r: string)
    ensures |r| == |s|
  {
    if s == [] then [] else [if IsKeyChar(s[0]) then s[0] else '_'] + Mark(s[1..])
  }

  /** Every `_` that follows another `_` dropped, so each run of `_` is one `_`. */
  function Squeeze(s: string): string
  {
    if |s| <= 1 then s
    else if s[0] == '_' && s[1] == '_' then Squeeze(s[1..])
    else [s[0]] + Squeeze(s[1..])
  }

  /** A `_` followed by the marks of a leading non-key run squeezes like a `_` alone. */
  lemma {:induction false} SqueezeDropRun(x: string)
    ensures Squeeze("_" + Mark(x)) == "_" + Squeeze(Mark(DropRun(x)))
  {
    if x != [] {
      if !IsKeyChar(x[0]) {
        assert "_" + Mark(x) == "_" + ("_" + Mark(x[1..]));
        SqueezeDropRun(x[1..]);
      } else {
        assert ("_" + Mark(x))[1..] == Mark(x);
      }
    }
  }

  /** `Collapse` is the character-wise marking followed by squeezing: the key characters
      of the input stay, in order, and each maximal run of other characters becomes
      exactly one `_`. */
  lemma {:induction false} CollapseIsSqueezedMark(s: string)
    ensures Collapse(s) == Squeeze(Mark(s))
    decreases |s|
  {
    if s != [] {
      if IsKeyChar(s[0]) {
        CollapseIsSqueezedMark(s[1..]);
        var m := Mark(s);
        assert m == [s[0]] + Mark(s[1..]);
        if |m| > 1 {
          assert m[1..] == Mark(s[1..]);
        }
      } else {
        CollapseIsSqueezedMark(DropRun(s[1..]));
        assert Mark(s) == "_" + Mark(s[1..]);
        SqueezeDropRun(s[1..]);
      }
    }
  }

  /** `replace(/^_|_$/g, '')`: at most one `_` goes from the front and one from the back. */
  function StripEdges(s: string): string
  {
    var a := if s != [] && s[0] == '_' then s[1..] else s;
    if a != [] && a[|a| - 1] == '_' then a[..|a| - 1] else a
  }

  /** `generateKey(name)`. */
  function GenerateKey(name: string): (key: string)
  {
    StripEdges(Collapse(Lower(name)))
  }

  /** Every key `generateKey` produces is well formed. */
  lemma GenerateKeyIsSlug(name: string)
    ensures IsSlug(GenerateKey(name))
  {
    var c := Collapse(Lower(name));
    var a := if c != [] && c[0] == '_' then c[1..] else c;
    assert forall i :: 0 <= i < |a| - 1 ==> !(a[i] == '_' && a[i + 1] == '_');
    assert a != [] ==> a[0] != '_';
  }

  /** The number of key characters in `s`. */
  function CountKey(s: string): (n: nat)
    ensures n == 0 <==> forall i :: 0 <= i < |s| ==> !IsKeyChar(s[i])
  {
    if s == [] then 0 else (if IsKeyChar(s[0]) then 1 else 0) + CountKey(s[1..])
  }

  lemma {:induction false} CountKeyAppend(a: string, b: string)
    ensures CountKey(a + b) == CountKey(a) + CountKey(b)
  {
    if a != [] {
      assert (a + b)[0] == a[0] && (a + b)[1..] == a[1..] + b;
      CountKeyAppend(a[1..], b);
    } else {
      assert a + b == b;
    }
  }

  /** `DropRun` drops no key character. */
  lemma {:induction false} DropRunCount(s: string)
    ensures CountKey(DropRun(s)) == CountKey(s)
  {
    if s != [] && !IsKeyChar(s[0]) {
      DropRunCount(s[1..]);
    }
  }

  /** Collapsing loses no key character. */
  lemma {:induction false} CollapseCount(s: string)
    ensures CountKey(Collapse(s)) == CountKey(s)
    decreases |s|
  {
    if s != [] {
      if IsKeyChar(s[0]) {
        CollapseCount(s[1..]);
        assert Collapse(s)[1..] == Collapse(s[1..]);
      } else {
        DropRunCount(s[1..]);
        CollapseCount(DropRun(s[1..]));
        assert Collapse(s)[1..] == Collapse(DropRun(s[1..]));
      }
    }
  }

  /** Stripping the edges removes only `_`. */
  lemma StripEdgesCount(c: string)
    ensures CountKey(StripEdges(c)) == CountKey(c)
  {
    var a := if c != [] && c[0] == '_' then c[1..] else c;
    if c != [] && c[0] == '_' {
      assert c == [c[0]] + a;
      CountKeyAppend([c[0]], a);
    }
    var r := StripEdges(c);
    if a != [] && a[|a| - 1] == '_' {
      assert a == r + [a[|a| - 1]];
      CountKeyAppend(r, [a[|a| - 1]]);
    }
  }

  /** The key is empty exactly when the name holds no ASCII letter or digit, so a name
      written only in other letters (such as "ää") gets the empty key. */
  lemma GenerateKeyEmpty(name: string)
    ensures GenerateKey(name) == [] <==> forall i :: 0 <= i < |name| ==> !IsKeyChar(LowerChar(name[i]))
  {
    var l := Lower(name);
    CollapseCount(l);
    StripEdgesCount(Collapse(l));
    var r := GenerateKey(name);
    assert CountKey(r) == CountKey(l);
    GenerateKeyIsSlug(name);
    if r != [] {
      assert IsKeyChar(r[0]);
    }
    assert (CountKey(l) == 0) == forall i :: 0 <= i < |name| ==> !IsKeyChar(LowerChar(name[i]));
  }

  /** Collapsing a string that already has no `__` and only key characters and `_`
      changes nothing. */
  lemma {:induction false} CollapseClean(s: string)
    requires forall i :: 0 <= i < |s| ==> IsKeyChar(s[i]) || s[i] == '_'
    requires forall i :: 0 <= i < |s| - 1 ==> !(s[i] == '_' && s[i + 1] == '_')
    ensures Collapse(s) == s
    decreases |s|
  {
    if s != [] {
      CollapseClean(s[1..]);
      if !IsKeyChar(s[0]) {
        assert DropRun(s[1..]) == s[1..];
      }
    }
  }

  /** A well-formed key is its own key. */
  lemma SlugIsFixedPoint(s: string)
    requires IsSlug(s)
    ensures GenerateKey(s) == s
  {
    LowerKeepsKeyChars(s);
    CollapseClean(s);
  }

  /** Lower-casing leaves key characters and `_` alone. */
  lemma LowerKeepsKeyChars(s: string)
    requires forall i :: 0 <= i < |s| ==> IsKeyChar(s[i]) || s[i] == '_'
    ensures Lower(s) == s
  {
    forall i | 0 <= i < |s| ensures LowerChar(s[i]) == s[i] {
      assert IsKeyChar(s[i]) || s[i] == '_';
    }
  }

  /** `generateKey` applied to its own output changes nothing. */
  lemma GenerateKeyIdempotent(name: string)
    ensures GenerateKey(GenerateKey(name)) == GenerateKey(name)
  {
    GenerateKeyIsSlug(name);
    SlugIsFixedPoint(GenerateKey(name));
  }

  /** A prefix of key characters passes through `Collapse` unchanged. */
  lemma {:induction false} CollapseKeyPrefix(u: string, t: string)
    requires forall i :: 0 <= i < |u| ==> IsKeyChar(u[i])
    ensures Collapse(u + t) == u + Collapse(t)
  {
    if u == [] {
      assert u + t == t;
    } else {
      assert (u + t)[0] == u[0] && (u + t)[1..] == u[1..] + t;
      CollapseKeyPrefix(u[1..], t);
    }
  }

  /** A single non-key character followed by a key character becomes one `_`. */
  lemma CollapseSeparator(c: char, t: string)
    requires !IsKeyChar(c) && t != [] && IsKeyChar(t[0])
    ensures Collapse([c] + t) == "_" + Collapse(t)
  {
    assert ([c] + t)[0] == c && ([c] + t)[1..] == t;
  }

  /** A string of key characters is its own collapse. */
  lemma CollapseKeys(u: string)
    requires forall i :: 0 <= i < |u| ==> IsKeyChar(u[i])
    ensures Collapse(u) == u
  {
    CollapseKeyPrefix(u, "");
    assert u + "" == u;
  }

  /** Three runs of key characters separated by single non-key characters collapse to the
      runs joined by `_`. */
  lemma CollapseTwoSeparators(a: string, c: char, b: string, d: char, e: string)
    requires forall i :: 0 <= i < |a| ==> IsKeyChar(a[i])
    requires forall i :: 0 <= i < |b| ==> IsKeyChar(b[i])
    requires forall i :: 0 <= i < |e| ==> IsKeyChar(e[i])
    requires b != [] && e != [] && !IsKeyChar(c) && !IsKeyChar(d)
    ensures Collapse(a + ([c] + (b + ([d] + e)))) == a + ("_" + (b + ("_" + e)))
  {
    CollapseKeys(e);
    CollapseSeparator(d, e);
    CollapseKeyPrefix(b, [d] + e);
    assert (b + ([d] + e))[0] == b[0];
    CollapseSeparator(c, b + ([d] + e));
    CollapseKeyPrefix(a, [c] + (b + ([d] + e)));
  }

  /** How `Collapse` treats the lower-cased "Käyttötuki", run by run. */
  lemma CollapseKayttotuki()
    ensures Collapse("k" + ("ä" + ("ytt" + ("ö" + "tuki")))) == "k" + ("_" + ("ytt" + ("_" + "tuki")))
  {
    CollapseTwoSeparators("k", '\U{E4}', "ytt", '\U{F6}', "tuki");
  }

  lemma LowerKayttotuki()
    ensures Lower("Käyttötuki") == "k" + ("ä" + ("ytt" + ("ö" + "tuki")))
  {
    var rest := "\U{E4}ytt\U{F6}tuki";
    assert "Käyttötuki" == ['K'] + rest;
    assert "k" + ("ä" + ("ytt" + ("ö" + "tuki"))) == ['k'] + rest;
    LowerUnchanged(rest);
  }

  /** Text with no capital letter is its own lower case. */
  lemma LowerUnchanged(s: string)
    requires forall i :: 0 <= i < |s| ==> !('A' <= s[i] <= 'Z') && !('\U{C0}' <= s[i] <= '\U{DE}')
    ensures Lower(s) == s
  {
  }

  lemma KayttotukiPieces()
    ensures "k" + ("_" + ("ytt" + ("_" + "tuki"))) == "k_ytt_tuki"
  {
  }

  /** The baseline display name "Käyttötuki" does not produce the baseline key
      "kayttotuki": its two non-ASCII letters each become a separator. */
  lemma NonAsciiNameKey()
    ensures GenerateKey("Käyttötuki") == "k_ytt_tuki"
  {
    LowerKayttotuki();
    CollapseKayttotuki();
    KayttotukiPieces();
    StripKayttotuki();
  }

  lemma StripKayttotuki()
    ensures StripEdges("k_ytt_tuki") == "k_ytt_tuki"
  {
  }

  /** A name made only of non-ASCII letters gets the empty key. */
  lemma NonAsciiOnlyName()
    ensures GenerateKey("ää") == ""
  {
    GenerateKeyEmpty("ää");
  }
}
