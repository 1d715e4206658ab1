/** Spanish accents: folding, and the variants of a token that fold alike. */
module Accents {

  const MAX_VARIANT_CHARS: nat := 64

  function FoldChar(c: char): char {
    match c
    case 'á' => 'a'
    case 'é' => 'e'
    case 'í' => 'i'
    case 'ó' => 'o'
    case 'ú' => 'u'
    case 'ü' => 'u'
    case 'Á' => 'A'
    case 'É' => 'E'
    case 'Í' => 'I'
    case 'Ó' => 'O'
    case 'Ú' => 'U'
    case 'Ü' => 'U'
    case other => other
  }

  function FoldAccents(s: string): (r: string)
    ensures |r| == |s| && forall i | 0 <= i < |s| :: r[i] == FoldChar(s[i])
  {
    seq(|s|, i requires 0 <= i < |s| => FoldChar(s[i]))
  }

  /** The single-accent forms of a base vowel. */
  function AccentedForms(c: char): (forms: seq<char>)
    ensures forall i | 0 <= i < |forms| :: FoldChar(forms[i]) == c != forms[i]
    ensures forall i, j | 0 <= i < j < |forms| :: forms[i] != forms[j]
  {
    match c
    case 'a' => ['á']
    case 'e' => ['é']
    case 'i' => ['í']
    case 'o' => ['ó']
    case 'u' => ['ú', 'ü']
    case _ => []
  }

  predicate Distinct<T(==)>(s: seq<T>) {
    forall i, j | 0 <= i < j < |s| :: s[i] != s[j]
  }

  /** `v` is the folded token with one vowel, below position `n`, carrying an accent. */
  ghost predicate OneAccent(v: string, base: string, n: nat)
    requires n <= |base|
  {
    exists i, c | 0 <= i < n && c in AccentedForms(base[i]) :: v == base[i := c]
  }

  /** `v` is a spelling that `token` reaches. */
  ghost predicate IsVariant(v: string, token: string) {
    v == token || v == FoldAccents(token) || (|token| <= MAX_VARIANT_CHARS && OneAccent(v, FoldAccents(token), |token|))
  }

  /** The folded form with `base[i]` accented in each of the ways of `forms` in turn, the token left out. */
  function AccentedAt(base: string, token: string, i: nat, forms: seq<char>): seq<string>
    requires i < |base|
  {
    if forms == [] then []
    else
      var last := base[i := forms[|forms| - 1]];
      AccentedAt(base, token, i, forms[..|forms| - 1]) + (if last == token then [] else [last])
  }

  function AccentedBelow(base: string, token: string, n: nat): seq<string>
    requires n <= |base|
  {
    if n == 0 then [] else AccentedBelow(base, token, n - 1) + AccentedAt(base, token, n - 1, AccentedForms(base[n - 1]))
  }

  /** The spellings in the order they are tried: as typed, folded, then accented from left to right. */
  function Variants(token: string): seq<string> {
    var base := FoldAccents(token);
    [token] + (if base == token then [] else [base]) + (if |base| > MAX_VARIANT_CHARS then [] else AccentedBelow(base, token, |base|))
  }

  lemma {:induction false} OneFormMore(base: string, token: string, i: nat, forms: seq<char>, j: nat)
    requires i < |base| && j < |forms|
    ensures AccentedAt(base, token, i, forms[..j + 1])
         == AccentedAt(base, token, i, forms[..j]) + if base[i := forms[j]] == token then [] else [base[i := forms[j]]]
  {
    assert forms[..j + 1][..j] == forms[..j];
  }

  lemma {:induction false} Joined(a: seq<string>, b: seq<string>, c: seq<string>)
    ensures a + (b + c) == a + b + c && a + [] == a
  {
  }

  /** The typed form first, then the folded one, then one variant per vowel and accent; each once. */
  method AccentVariants(token: string) returns (out: seq<string>)
    ensures out != [] && out[0] == token && Distinct(out)
    ensures forall v: string :: v in out <==> IsVariant(v, token)
    ensures out == Variants(token)
  {
    hide OneAccent, AccentedForms, FoldAccents, AccentedAt, AccentedBelow;
    var base := FoldAccents(token);
    out := [token];
    NothingAccented(base);
    if base != token {
      out := out + [base];
    }
    ghost var head := out;
    Joined(head, [], []);
    if |base| > MAX_VARIANT_CHARS {
      return;
    }
    NoneBelow(base, token);
    for i := 0 to |base|
      invariant out != [] && out[0] == token && Distinct(out)
      invariant forall v: string :: v in out <==> v == token || v == base || OneAccent(v, base, i)
      invariant out == head + AccentedBelow(base, token, i)
    {
      var forms := AccentedForms(base[i]);
      ghost var before := out;
      BelowStep(base, token, i);
      Joined(before, [], []);
      for j := 0 to |forms|
        invariant out != [] && out[0] == token && Distinct(out)
        invariant forall v: string :: v in out <==> v in before || exists k | 0 <= k < j :: v == base[i := forms[k]]
        invariant out == before + AccentedAt(base, token, i, forms[..j])
      {
        var variant := base[i := forms[j]];
        NewVariant(base, i, forms[j]);
        OneFormMore(base, token, i, forms, j);
        Joined(before, AccentedAt(base, token, i, forms[..j]), [variant]);
        Joined(AccentedAt(base, token, i, forms[..j]), [], []);
        assert forall k | 0 <= k < j :: base[i := forms[k]][i] != variant[i];
        if variant != token {
          out := Add(out, variant);
        } else {
          assert token in out;
        }
      }
      assert forms[..|forms|] == forms;
      Joined(head, AccentedBelow(base, token, i), AccentedAt(base, token, i, forms));
      forall v: string ensures v in out <==> v == token || v == base || OneAccent(v, base, i + 1) {
        OneAccentMore(v, base, i);
      }
    }
  }

  lemma {:induction false} NoneBelow(base: string, token: string)
    ensures AccentedBelow(base, token, 0) == []
  {
  }

  lemma {:induction false} BelowStep(base: string, token: string, i: nat)
    requires i < |base|
    ensures AccentedBelow(base, token, i + 1) == AccentedBelow(base, token, i) + AccentedAt(base, token, i, AccentedForms(base[i]))
    ensures forall forms: seq<char> :: AccentedAt(base, token, i, forms[..0]) == []
  {
    assert forall forms: seq<char> :: forms[..0] == [];
  }

  method Add(out: seq<string>, v: string) returns (r: seq<string>)
    requires Distinct(out) && v !in out && out != []
    ensures Distinct(r) && r == out + [v] && forall w :: w in r <==> w in out || w == v
  {
    r := out + [v];
  }

  /** A variant accented at `i` is neither the folded form nor accented before `i`. */
  lemma {:induction false} NewVariant(base: string, i: nat, c: char)
    requires i < |base| && c in AccentedForms(base[i])
    ensures base[i := c] != base && !OneAccent(base[i := c], base, i)
  {
    var v := base[i := c];
    assert v[i] == c != base[i];
    forall k, e | 0 <= k < i && e in AccentedForms(base[k]) ensures v != base[k := e] {
      assert base[k := e][i] == base[i];
    }
  }

  lemma {:induction false} NothingAccented(base: string)
    ensures forall v: string :: !OneAccent(v, base, 0)
  {
  }

  lemma {:induction false} OneAccentMore(v: string, base: string, i: nat)
    requires i < |base|
    ensures var forms := AccentedForms(base[i]);
            OneAccent(v, base, i + 1) <==> OneAccent(v, base, i) || exists k | 0 <= k < |forms| :: v == base[i := forms[k]]
  {
    var forms := AccentedForms(base[i]);
    if k :| 0 <= k < |forms| && v == base[i := forms[k]] {
      assert forms[k] in forms;
    }
  }

  /** The vowels with their accented forms. */
  predicate IsAccented(vowel: char, accented: char) {
    (vowel, accented) in {('a', 'á'), ('e', 'é'), ('i', 'í'), ('o', 'ó'), ('u', 'ú'), ('u', 'ü')}
  }

  /** The spellings of a token, letter by letter: itself, its folded form, and for up to 64 letters the
      folded form with one vowel accented. */
  lemma {:induction false} VariantIs(v: string, token: string)
    ensures IsVariant(v, token) <==>
            || v == token
            || v == FoldAccents(token)
            || (|token| <= 64 && |v| == |token|
                && exists i | 0 <= i < |token| :: IsAccented(FoldAccents(token)[i], v[i]) && v == FoldAccents(token)[i := v[i]])
  {
    hide FoldAccents, IsAccented;
    var base := FoldAccents(token);
    forall b: char, c: char ensures c in AccentedForms(b) <==> IsAccented(b, c) {
      FormsAre(b, c);
    }
    if OneAccent(v, base, |token|) {
      var i, c :| 0 <= i < |token| && c in AccentedForms(base[i]) && v == base[i := c];
      assert v[i] == c;
    }
  }

  lemma {:induction false} FormsAre(b: char, c: char)
    ensures c in AccentedForms(b) <==> IsAccented(b, c)
  {
  }

  /** All variants of a token have its length and fold to the same string. */
  lemma {:induction false} VariantsFoldAlike(token: string, v: string)
    requires IsVariant(v, token)
    ensures |v| == |token| && FoldAccents(v) == FoldAccents(token)
  {
    var base := FoldAccents(token);
    assert FoldAccents(base) == base;
    if v != token && v != base {
      var i, c :| 0 <= i < |token| && c in AccentedForms(base[i]) && v == base[i := c];
      assert forall k | 0 <= k < |v| :: FoldChar(v[k]) == base[k];
    }
  }

  /** No string starts with two different prefixes of one length: the variants' buckets are disjoint. */
  lemma {:induction false} BucketsDisjoint(a: string, b: string, t: string)
    requires |a| == |b| && a <= t && b <= t
    ensures a == b
  {
  }
}
