/** Identifier derivation of `scout_anki/schema.py`: the slug normaliser and the
    SHA-1 based stable numeric identifier. */
module Identifiers {
  import opened Wrappers
  import opened Seqs
  import Text
  import opened JsonValue

  /** `TypeError` for a non-string argument, `ValueError` for an empty slug. */
  datatype SlugError = NotAString | EmptySlug

  predicate IsAlnum(c: char) { 'a' <= c <= 'z' || '0' <= c <= '9' }

  predicate IsSlugChar(c: char) { IsAlnum(c) || c == '-' }

  predicate NotDash(c: char) { c != '-' }

  predicate HasAlnum(s: string) { exists i | 0 <= i < |s| :: IsAlnum(s[i]) }

  predicate AllSlugChars(s: string) { forall i | 0 <= i < |s| :: IsSlugChar(s[i]) }

  predicate NoDoubleDash(s: string) { forall i | 0 <= i < |s| - 1 :: !(s[i] == '-' && s[i + 1] == '-') }

  /** A well-formed slug: non-empty, only `[a-z0-9-]`, no dash at either end and
      no two dashes in a row. */
  predicate IsSlug(s: string)
  {
    |s| > 0 && AllSlugChars(s) && s[0] != '-' && s[|s| - 1] != '-' && NoDoubleDash(s)
  }

  lemma HasAlnumCons(c: char, s: string)
    ensures HasAlnum([c] + s) <==> IsAlnum(c) || HasAlnum(s)
  {
    if HasAlnum(s) {
      var i :| 0 <= i < |s| && IsAlnum(s[i]);
      assert ([c] + s)[i + 1] == s[i];
    }
    if IsAlnum(c) {
      assert ([c] + s)[0] == c;
    }
    if HasAlnum([c] + s) && !IsAlnum(c) {
      var i :| 0 <= i < |s| + 1 && IsAlnum(([c] + s)[i]);
      assert i != 0;
      assert s[i - 1] == ([c] + s)[i];
    }
  }

  /** `s.replace(" ", "-")`. */
  function SpacesToDashes(s: string): (r: string)
    ensures |r| == |s|
    ensures forall k :: 0 <= k < |s| ==> r[k] == (if s[k] == ' ' then '-' else s[k])
  {
    if |s| == 0 then [] else [if s[0] == ' ' then '-' else s[0]] + SpacesToDashes(s[1..])
  }

  /** `re.sub(r"[^a-z0-9-]", "", s)`. */
  function KeepSlugChars(s: string): (r: string)
    ensures r == Filter(s, IsSlugChar)
    ensures AllSlugChars(r)
    ensures HasAlnum(r) <==> HasAlnum(s)
    ensures AllSlugChars(s) ==> r == s
  {
    if |s| == 0 then []
    else
      var rest := KeepSlugChars(s[1..]);
      HasAlnumCons(s[0], s[1..]);
      assert s == [s[0]] + s[1..];
      if IsSlugChar(s[0]) then HasAlnumCons(s[0], rest); [s[0]] + rest else rest
  }

  /** `re.sub(r"-+", "-", s)`: every run of dashes becomes one dash
      (`CollapseDashRun`); only dashes are removed (`CollapseKeepsNonDashes`). */
  function CollapseDashes(s: string): (r: string)
    ensures |s| > 0 ==> |r| > 0 && r[0] == s[0]
    ensures NoDoubleDash(r)
    ensures AllSlugChars(s) ==> AllSlugChars(r)
    ensures HasAlnum(r) <==> HasAlnum(s)
    ensures NoDoubleDash(s) ==> r == s
  {
    if |s| <= 1 then s
    else
      var rest := CollapseDashes(s[1..]);
      HasAlnumCons(s[0], s[1..]);
      assert s == [s[0]] + s[1..];
      if s[0] == '-' && s[1] == '-' then rest
      else
        HasAlnumCons(s[0], rest);
        [s[0]] + rest
  }

  /** Collapsing removes dashes only: every other character stays, in order. */
  lemma {:induction false} CollapseKeepsNonDashes(s: string)
    ensures Filter(CollapseDashes(s), NotDash) == Filter(s, NotDash)
  {
    if |s| > 1 {
      var rest := CollapseDashes(s[1..]);
      CollapseKeepsNonDashes(s[1..]);
      if !(s[0] == '-' && s[1] == '-') {
        assert CollapseDashes(s) == [s[0]] + rest;
        assert ([s[0]] + rest)[1..] == rest;
      }
    }
  }

  /** A run of two dashes collapses like a single dash wherever it stands;
      with `NoDoubleDash(s) ==> r == s` this fixes `CollapseDashes` on every
      input: each run of dashes becomes exactly one dash. */
  lemma {:induction false} CollapseDoubleDash(a: string, b: string)
    ensures CollapseDashes(a + "--" + b) == CollapseDashes(a + "-" + b)
  {
    if |a| == 0 {
      CollapseDoubleDashFirst(b);
    } else {
      CollapseDoubleDash(a[1..], b);
      ConsSplit(a, "--", b);
      ConsSplit(a, "-", b);
      CollapseSameStep(a[0], a[1..] + "--" + b, a[1..] + "-" + b);
    }
  }

  lemma CollapseDoubleDashFirst(b: string)
    ensures CollapseDashes("--" + b) == CollapseDashes("-" + b)
  {
    assert "--" + b == ['-'] + ("-" + b);
    CollapseCons('-', "-" + b);
  }

  lemma ConsSplit(a: string, mid: string, b: string)
    requires |a| > 0
    ensures a + mid + b == [a[0]] + (a[1..] + mid + b)
  {
  }

  /** Tails that start alike and collapse alike still collapse alike behind
      the same first character. */
  lemma CollapseSameStep(c: char, u: string, v: string)
    requires |u| > 0 && |v| > 0 && u[0] == v[0]
    requires CollapseDashes(u) == CollapseDashes(v)
    ensures CollapseDashes([c] + u) == CollapseDashes([c] + v)
  {
    CollapseCons(c, u);
    CollapseCons(c, v);
  }

  /** One step of `CollapseDashes`: a dash followed by a dash is dropped. */
  lemma CollapseCons(c: char, u: string)
    requires |u| > 0
    ensures CollapseDashes([c] + u)
            == if c == '-' && u[0] == '-' then CollapseDashes(u) else [c] + CollapseDashes(u)
  {
    assert ([c] + u)[1..] == u;
  }

  /** A run of dashes of any length collapses to one dash. */
  lemma {:induction false} CollapseDashRun(a: string, n: nat, b: string)
    requires n > 0
    ensures CollapseDashes(a + Dashes(n) + b) == CollapseDashes(a + "-" + b)
  {
    if n == 1 {
      assert Dashes(1) == "-";
    } else {
      var tail := Dashes(n - 2) + b;
      assert a + Dashes(n) + b == a + "--" + tail;
      assert a + Dashes(n - 1) + b == a + "-" + tail;
      CollapseDoubleDash(a, tail);
      CollapseDashRun(a, n - 1, b);
    }
  }

  function Dashes(n: nat): (d: string)
    ensures |d| == n && forall k :: 0 <= k < n ==> d[k] == '-'
  {
    seq(n, _ => '-')
  }

  function TrimLeadingDashes(s: string): (r: string)
    ensures |r| <= |s| && r == s[|s| - |r|..]
    ensures |r| > 0 ==> r[0] != '-'
    ensures forall k :: 0 <= k < |s| - |r| ==> s[k] == '-'
  {
    if |s| > 0 && s[0] == '-' then TrimLeadingDashes(s[1..]) else s
  }

  function TrimTrailingDashes(s: string): (r: string)
    ensures |r| <= |s| && r == s[..|r|]
    ensures |r| > 0 ==> r[|r| - 1] != '-'
    ensures forall k :: |r| <= k < |s| ==> s[k] == '-'
  {
    if |s| > 0 && s[|s| - 1] == '-' then TrimTrailingDashes(s[..|s| - 1]) else s
  }

  /** Dropping dashes from a string of dashes leaves nothing. */
  lemma {:induction false} OnlyDashes(d: string)
    requires forall k :: 0 <= k < |d| ==> d[k] == '-'
    ensures Filter(d, NotDash) == []
  {
    if |d| > 0 {
      OnlyDashes(d[1..]);
    }
  }

  /** `s.strip("-")`: a middle slice of `s` with no dash at either end, cut
      out of dashes only (`TrimDashesIsMiddleSlice`). */
  function TrimDashes(s: string): (r: string)
    ensures AllSlugChars(s) ==> AllSlugChars(r)
    ensures NoDoubleDash(s) ==> NoDoubleDash(r)
    ensures |r| > 0 ==> r[0] != '-' && r[|r| - 1] != '-'
    ensures AllSlugChars(s) ==> (r == "" <==> !HasAlnum(s))
    ensures |s| > 0 && s[0] != '-' && s[|s| - 1] != '-' ==> r == s
  {
    var left := TrimLeadingDashes(s);
    var r := TrimTrailingDashes(left);
    assert forall k :: 0 <= k < |r| ==> r[k] == s[|s| - |left| + k];
    assert r == "" ==> forall k :: 0 <= k < |s| ==> s[k] == '-';
    r
  }

  /** Trimming cuts dashes only, off both ends: what remains is a slice of
      `s` (`TrimDashesKeepsNonDashes` follows). */
  lemma TrimDashesIsMiddleSlice(s: string)
    ensures var r := TrimDashes(s);
            exists i :: 0 <= i <= |s| - |r| && r == s[i..][..|r|]
                        && (forall k :: 0 <= k < i ==> s[k] == '-')
                        && (forall k :: i + |r| <= k < |s| ==> s[k] == '-')
  {
    TrimDashesAt(s);
  }

  /** The slice starts after the leading dashes. */
  lemma TrimDashesAt(s: string)
    ensures var r := TrimDashes(s);
            var i := |s| - |TrimLeadingDashes(s)|;
            && 0 <= i <= |s| - |r| && r == s[i..][..|r|]
            && (forall k :: 0 <= k < i ==> s[k] == '-')
            && (forall k :: i + |r| <= k < |s| ==> s[k] == '-')
  {
    var left := TrimLeadingDashes(s);
    var r := TrimTrailingDashes(left);
    assert r == TrimDashes(s);
    var i := |s| - |left|;
    assert r == s[i..][..|r|];
    assert forall k :: i + |r| <= k < |s| ==> s[k] == '-' by {
      forall k | i + |r| <= k < |s| ensures s[k] == '-' {
        assert s[k] == left[k - i];
      }
    }
  }

  /** Every character of `s` other than a dash survives trimming, in order. */
  lemma TrimDashesKeepsNonDashes(s: string)
    ensures Filter(TrimDashes(s), NotDash) == Filter(s, NotDash)
  {
    var r := TrimDashes(s);
    var i := |s| - |TrimLeadingDashes(s)|;
    TrimDashesAt(s);
    SliceSplit(s, i, |r|);
    DashesAround(s[..i], r, s[i + |r|..]);
  }

  lemma DashesAround(front: string, mid: string, back: string)
    requires forall k :: 0 <= k < |front| ==> front[k] == '-'
    requires forall k :: 0 <= k < |back| ==> back[k] == '-'
    ensures Filter(front + mid + back, NotDash) == Filter(mid, NotDash)
  {
    OnlyDashes(front);
    OnlyDashes(back);
    FilterAppend(front + mid, back, NotDash);
    FilterAppend(front, mid, NotDash);
  }

  lemma SliceSplit(s: string, i: nat, n: nat)
    requires i + n <= |s|
    ensures s == s[..i] + s[i..][..n] + s[i + n..]
  {
    assert s[..i] + s[i..][..n] == s[..i + n];
  }

  /** `slug(s)` of `scout_anki/schema.py`: lower-case, spaces to dashes, drop
      everything outside `[a-z0-9-]`, collapse dash runs, trim dashes; an empty
      outcome is a `ValueError`. The result is a well-formed slug, and the slug
      fails exactly when the lower-cased input holds no ASCII letter or digit. */
  function Slug(s: string): (r: Result<string, SlugError>)
    ensures r.Success? ==> IsSlug(r.value)
    ensures r.Failure? <==> !HasAlnum(Text.Lower(s))
    ensures r.Failure? ==> r.error == EmptySlug
  {
    var lowered := Text.Lower(s);
    var dashed := SpacesToDashes(lowered);
    assert HasAlnum(dashed) <==> HasAlnum(lowered) by {
      if HasAlnum(lowered) {
        var i :| 0 <= i < |lowered| && IsAlnum(lowered[i]);
        assert IsAlnum(dashed[i]);
      }
      if HasAlnum(dashed) {
        var i :| 0 <= i < |dashed| && IsAlnum(dashed[i]);
        assert IsAlnum(lowered[i]);
      }
    }
    var kept := KeepSlugChars(dashed);
    var collapsed := CollapseDashes(kept);
    var result := TrimDashes(collapsed);
    if result == "" then Failure(EmptySlug) else Success(result)
  }

  /** The non-dash characters of a slug are exactly the ASCII letters and
      digits of the lower-cased input, in order. */
  lemma {:induction false} SlugLettersAndDigits(s: string)
    requires Slug(s).Success?
    ensures Filter(Slug(s).value, NotDash) == Filter(Text.Lower(s), IsAlnum)
  {
    var lowered := Text.Lower(s);
    var dashed := SpacesToDashes(lowered);
    var kept := KeepSlugChars(dashed);
    var collapsed := CollapseDashes(kept);
    assert Slug(s).value == TrimDashes(collapsed);
    TrimDashesKeepsNonDashes(collapsed);
    CollapseKeepsNonDashes(kept);
    assert Filter(kept, NotDash) == Filter(dashed, IsAlnum) by {
      FilterFilter(dashed, IsSlugChar, NotDash, IsAlnum);
    }
    DashesKeepAlnums(lowered);
  }

  /** Two slugs joined by a space give the two slugs joined by a dash: a
      space between words becomes one dash (`"fire safety"` gives
      `"fire-safety"`). */
  lemma SlugJoinsWords(w1: string, w2: string)
    requires IsSlug(w1) && IsSlug(w2)
    ensures Slug(w1 + " " + w2) == Success(w1 + "-" + w2)
  {
    var j := w1 + "-" + w2;
    LowerOfJoin(w1, w2);
    DashesOfJoin(w1, w2);
    JoinIsSlug(w1, w2);
    SlugStagesKeep(j);
  }

  /** The last three stages leave a well-formed slug unchanged. */
  lemma SlugStagesKeep(t: string)
    requires IsSlug(t)
    ensures TrimDashes(CollapseDashes(KeepSlugChars(t))) == t
  {
    assert KeepSlugChars(t) == t;
    assert CollapseDashes(t) == t;
  }

  lemma DashesOfJoin(w1: string, w2: string)
    requires AllSlugChars(w1) && AllSlugChars(w2)
    ensures SpacesToDashes(w1 + " " + w2) == w1 + "-" + w2
  {
    SpacesToDashesAppend(w1 + " ", w2);
    SpacesToDashesAppend(w1, " ");
    SpacesToDashesOfSlugChars(w1);
    SpacesToDashesOfSlugChars(w2);
    SpaceToDash();
  }

  lemma SpaceToDash()
    ensures SpacesToDashes(" ") == "-"
  {
  }

  lemma SpacesToDashesAppend(a: string, b: string)
    ensures SpacesToDashes(a + b) == SpacesToDashes(a) + SpacesToDashes(b)
  {
    assert forall k :: 0 <= k < |a| ==> (a + b)[k] == a[k];
    assert forall k :: |a| <= k < |a + b| ==> (a + b)[k] == b[k - |a|];
  }

  lemma SpacesToDashesOfSlugChars(w: string)
    requires AllSlugChars(w)
    ensures SpacesToDashes(w) == w
  {
  }

  lemma LowerOfJoin(w1: string, w2: string)
    requires AllSlugChars(w1) && AllSlugChars(w2)
    ensures Text.Lower(w1 + " " + w2) == w1 + " " + w2
  {
    LowerOfSlugChars(w1);
    LowerOfSlugChars(w2);
    Text.LowerAppend(w1 + " ", w2);
    Text.LowerAppend(w1, " ");
  }

  /** Two slugs joined by one dash form a slug. */
  lemma JoinIsSlug(w1: string, w2: string)
    requires IsSlug(w1) && IsSlug(w2)
    ensures IsSlug(w1 + "-" + w2)
  {
    var j := w1 + "-" + w2;
    forall i | 0 <= i < |j| - 1 ensures !(j[i] == '-' && j[i + 1] == '-') {
      if i < |w1| - 1 {
        assert j[i] == w1[i] && j[i + 1] == w1[i + 1];
      } else if i == |w1| - 1 {
        assert j[i] == w1[|w1| - 1];
      } else if i == |w1| {
        assert j[i + 1] == w2[0];
      } else {
        assert j[i] == w2[i - |w1| - 1] && j[i + 1] == w2[i - |w1|];
      }
    }
    forall i | 0 <= i < |j| ensures IsSlugChar(j[i]) {
      if i < |w1| {
        assert j[i] == w1[i];
      } else if i > |w1| {
        assert j[i] == w2[i - |w1| - 1];
      }
    }
  }

  /** Spaces and dashes are neither letters nor digits. */
  lemma {:induction false} DashesKeepAlnums(s: string)
    ensures Filter(SpacesToDashes(s), IsAlnum) == Filter(s, IsAlnum)
  {
    if |s| > 0 {
      DashesKeepAlnums(s[1..]);
      assert SpacesToDashes(s)[1..] == SpacesToDashes(s[1..]);
    }
  }

  /** `slug(v)` for an arbitrary JSON value: a non-string is a `TypeError`. */
  function SlugOf(v: Json): (r: Result<string, SlugError>)
    ensures !v.JStr? <==> r == Failure(NotAString)
    ensures v.JStr? ==> r == Slug(v.s)
  {
    if v.JStr? then Slug(v.s) else Failure(NotAString)
  }

  lemma {:induction false} LowerOfSlugChars(s: string)
    requires AllSlugChars(s)
    ensures Text.Lower(s) == s
  {
    assert forall k :: 0 <= k < |s| ==> Text.Lower(s)[k] == s[k];
  }

  /** A slug is its own slug: `slug(slug(s)) == slug(s)`. */
  lemma {:induction false} SlugIdempotent(s: string)
    requires Slug(s).Success?
    ensures Slug(Slug(s).value) == Slug(s)
  {
    var t := Slug(s).value;
    LowerOfSlugChars(t);
    assert SpacesToDashes(t) == t;
    assert KeepSlugChars(t) == t;
    assert CollapseDashes(t) == t;
    assert TrimDashes(t) == t;
  }

  /** One byte of a SHA-1 digest, and the 20-byte digest itself. */
  type Byte = b: int | 0 <= b < 256
  type Sha1Digest = d: seq<Byte> | |d| == 20 witness seq(20, _ => 0)

  predicate IsHexDigit(c: char) { '0' <= c <= '9' || 'a' <= c <= 'f' || 'A' <= c <= 'F' }

  function HexChar(n: nat): (c: char)
    requires n < 16
    ensures IsHexDigit(c)
  {
    if n < 10 then ('0' as int + n) as char else ('a' as int + n - 10) as char
  }

  lemma HexRoundTrip(n: nat)
    requires n < 16
    ensures HexValue(HexChar(n)) == n
  {
  }

  /** Value of one digit under `int(_, 16)`. */
  function HexValue(c: char): (v: nat)
    requires IsHexDigit(c)
    ensures v < 16
  {
    if '0' <= c <= '9' then c as int - '0' as int
    else if 'a' <= c <= 'f' then c as int - 'a' as int + 10
    else c as int - 'A' as int + 10
  }

  function Pow(b: nat, e: nat): nat
  {
    if e == 0 then 1 else b * Pow(b, e - 1)
  }

  /** `digest.hexdigest()`: two lower-case hexadecimal digits per byte. */
  function HexDigest(d: seq<Byte>): (r: string)
    ensures |r| == 2 * |d|
    ensures forall k :: 0 <= k < |r| ==> IsHexDigit(r[k])
  {
    if |d| == 0 then ""
    else HexDigest(d[..|d| - 1]) + [HexChar(d[|d| - 1] / 16), HexChar(d[|d| - 1] % 16)]
  }

  /** `int(s, 16)` for a string of hexadecimal digits; it stays below `16^|s|`. */
  function ParseHex(s: string): (r: nat)
    requires forall k :: 0 <= k < |s| ==> IsHexDigit(s[k])
    ensures r < Pow(16, |s|)
  {
    if |s| == 0 then 0
    else
      var prefix := ParseHex(s[..|s| - 1]);
      var digit := HexValue(s[|s| - 1]);
      assert prefix * 16 + digit < Pow(16, |s|) by {
        assert prefix <= Pow(16, |s| - 1) - 1;
        assert prefix * 16 <= Pow(16, |s| - 1) * 16 - 16;
      }
      prefix * 16 + digit
  }

  /** Big-endian value of a byte string: the independent reading of what the
      first hex digits of a digest denote. */
  function BigEndian(bs: seq<Byte>): nat
  {
    if |bs| == 0 then 0 else BigEndian(bs[..|bs| - 1]) * 256 + bs[|bs| - 1]
  }

  /** `stable_id(seed)`: the first 10 hexadecimal digits of the SHA-1 digest of the
      seed, read as an integer; `sha1` stands for `hashlib.sha1` applied to the
      UTF-8 encoding. The value lies in `[0, 16^10)`. */
  function StableId(sha1: string -> Sha1Digest, seed: string): (r: nat)
    ensures r < 0x100_0000_0000
  {
    var hex := HexDigest(sha1(seed));
    Pow16Ten();
    ParseHex(hex[..10])
  }

  lemma Pow16Ten()
    ensures Pow(16, 10) == 0x100_0000_0000
  {
    assert Pow(16, 1) == 16;
    assert Pow(16, 2) == 0x100;
    assert Pow(16, 3) == 0x1000;
    assert Pow(16, 4) == 0x1_0000;
    assert Pow(16, 5) == 0x10_0000;
    assert Pow(16, 6) == 0x100_0000;
    assert Pow(16, 7) == 0x1000_0000;
    assert Pow(16, 8) == 0x1_0000_0000;
    assert Pow(16, 9) == 0x10_0000_0000;
  }

  lemma {:induction false} HexDigestPrefix(d: seq<Byte>, n: nat)
    requires n <= |d|
    ensures HexDigest(d)[..2 * n] == HexDigest(d[..n])
  {
    if n < |d| {
      var init := d[..|d| - 1];
      HexDigestPrefix(init, n);
      assert init[..n] == d[..n];
    } else {
      assert d[..n] == d;
    }
  }

  lemma ByteDigits(p: int, b: Byte)
    ensures (p * 16 + b / 16) * 16 + b % 16 == p * 256 + b
  {
  }

  /** Appending two digits to a hexadecimal string shifts its value by two
      digit places. */
  lemma ParseHexAppend2(h: string, hi: char, lo: char)
    requires forall k :: 0 <= k < |h| ==> IsHexDigit(h[k])
    requires IsHexDigit(hi) && IsHexDigit(lo)
    ensures ParseHex(h + [hi, lo]) == (ParseHex(h) * 16 + HexValue(hi)) * 16 + HexValue(lo)
  {
    var s := h + [hi, lo];
    assert s[..|s| - 1] == h + [hi];
    assert (h + [hi])[..|h|] == h;
  }

  lemma {:induction false} ParseHexDigest(d: seq<Byte>)
    ensures ParseHex(HexDigest(d)) == BigEndian(d)
  {
    if |d| > 0 {
      var init := d[..|d| - 1];
      var b := d[|d| - 1];
      var h := HexDigest(init);
      ParseHexDigest(init);
      assert HexDigest(d) == h + [HexChar(b / 16), HexChar(b % 16)];
      HexRoundTrip(b / 16);
      HexRoundTrip(b % 16);
      ParseHexAppend2(h, HexChar(b / 16), HexChar(b % 16));
      ByteDigits(ParseHex(h), b);
    }
  }

  /** The stable identifier is the big-endian value of the digest's first five
      bytes (ten hex digits are five bytes). */
  lemma StableIdIsDigestPrefix(sha1: string -> Sha1Digest, seed: string)
    ensures StableId(sha1, seed) == BigEndian(sha1(seed)[..5])
  {
    var d := sha1(seed);
    HexDigestPrefix(d, 5);
    ParseHexDigest(d[..5]);
  }
}
