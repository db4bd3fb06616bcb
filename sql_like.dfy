/**
 * SQL `LIKE` as the cities query uses it: `$wpdb->esc_like` on the term, a
 * trailing `%`, and the database's pattern matcher with `\` as its escape
 * character. Case-insensitivity comes from the table collation; the model folds
 * ASCII letters to lower case on both sides.
 */
module SqlLike {
  import opened Seqs

  /** ASCII lower-casing, standing in for a case-insensitive collation. */
  function Fold(c: char): char {
    if 'A' <= c <= 'Z' then (c as int + 32) as char else c
  }

  /** `s` starts with `t`, ignoring case. */
  predicate StartsWithCI(s: string, t: string) {
    |t| <= |s| && forall i :: 0 <= i < |t| ==> Fold(s[i]) == Fold(t[i])
  }

  predicate IsLikeMeta(c: char) {
    c == '\\' || c == '_' || c == '%'
  }

  /** `$wpdb->esc_like`: a backslash in front of every `\`, `_` and `%`. */
  function EscLike(s: string): (r: string)
    ensures |s| <= |r| <= 2 * |s|
  {
    if s == [] then []
    else (if IsLikeMeta(s[0]) then ['\\', s[0]] else [s[0]]) + EscLike(s[1..])
  }

  /** One element of a parsed pattern: a literal character, `_` or `%`. */
  datatype Token = Lit(c: char) | AnyChar | AnyString

  /** How the database reads a pattern: `\x` is the literal `x`, `_` and `%` are wildcards. */
  function ParsePattern(p: string): seq<Token>
    decreases |p|
  {
    if p == [] then []
    else if p[0] == '\\' && |p| >= 2 then [Lit(p[1])] + ParsePattern(p[2..])
    else if p[0] == '%' then [AnyString] + ParsePattern(p[1..])
    else if p[0] == '_' then [AnyChar] + ParsePattern(p[1..])
    else [Lit(p[0])] + ParsePattern(p[1..])
  }

  /** The pattern that matches exactly the characters of `s`, in order. */
  function Lits(s: string): (r: seq<Token>)
    ensures |r| == |s|
    ensures forall i :: 0 <= i < |s| ==> r[i] == Lit(s[i])
  {
    if s == [] then [] else [Lit(s[0])] + Lits(s[1..])
  }

  /** Whether `s` matches the parsed pattern `p` in full. */
  predicate Matches(s: string, p: seq<Token>)
    decreases |p|, |s|
  {
    if p == [] then s == []
    else match p[0]
      case Lit(c) => s != [] && Fold(s[0]) == Fold(c) && Matches(s[1..], p[1..])
      case AnyChar => s != [] && Matches(s[1..], p[1..])
      case AnyString => Matches(s, p[1..]) || (s != [] && Matches(s[1..], p))
  }

  /** `s LIKE pattern`. */
  predicate Like(s: string, pattern: string) {
    Matches(s, ParsePattern(pattern))
  }

  /** The pattern the cities query binds for a term: `esc_like(term) . '%'`. */
  function PrefixPattern(term: string): (r: string)
    ensures |r| > |term|
  {
    EscLike(term) + "%"
  }

  lemma ParseEscapedHead(c: char, tail: string)
    ensures ParsePattern(['\\', c] + tail) == [Lit(c)] + ParsePattern(tail)
  {
    var p := ['\\', c] + tail;
    assert p[0] == '\\' && p[1] == c;
    assert p[2..] == tail;
  }

  lemma ParsePlainHead(c: char, tail: string)
    requires !IsLikeMeta(c)
    ensures ParsePattern([c] + tail) == [Lit(c)] + ParsePattern(tail)
  {
    var p := [c] + tail;
    assert p[0] == c;
    assert p[1..] == tail;
  }

  /** Escaping turns every character of the term into a literal, whatever follows. */
  lemma {:induction false} ParseEscLike(t: string, rest: string)
    ensures ParsePattern(EscLike(t) + rest) == Lits(t) + ParsePattern(rest)
  {
    if t != [] {
      var head := if IsLikeMeta(t[0]) then ['\\', t[0]] else [t[0]];
      var tail := EscLike(t[1..]) + rest;
      AppendAssoc(head, EscLike(t[1..]), rest);
      if IsLikeMeta(t[0]) {
        ParseEscapedHead(t[0], tail);
      } else {
        ParsePlainHead(t[0], tail);
      }
      ParseEscLike(t[1..], rest);
      AppendAssoc([Lit(t[0])], Lits(t[1..]), ParsePattern(rest));
    } else {
      EmptyAppend(EscLike(t), rest);
      EmptyAppend(Lits(t), ParsePattern(rest));
    }
  }

  /** A lone `%` matches everything. */
  lemma {:induction false} MatchesAnyString(s: string)
    ensures Matches(s, [AnyString])
    decreases |s|
  {
    if s != [] {
      MatchesAnyString(s[1..]);
    }
    assert [AnyString][1..] == [];
  }

  lemma {:induction false} MatchesLitsAnyString(s: string, t: string)
    ensures Matches(s, Lits(t) + [AnyString]) <==> StartsWithCI(s, t)
    decreases |t|
  {
    if t == [] {
      MatchesAnyString(s);
      assert Lits(t) + [AnyString] == [AnyString];
    } else {
      var p := Lits(t) + [AnyString];
      assert p[0] == Lit(t[0]);
      assert p[1..] == Lits(t[1..]) + [AnyString];
      if s != [] {
        MatchesLitsAnyString(s[1..], t[1..]);
        if StartsWithCI(s[1..], t[1..]) && Fold(s[0]) == Fold(t[0]) {
          forall i | 0 <= i < |t|
            ensures Fold(s[i]) == Fold(t[i])
          {
            if i > 0 {
              assert s[i] == s[1..][i - 1] && t[i] == t[1..][i - 1];
            }
          }
        }
        if StartsWithCI(s, t) {
          forall i | 0 <= i < |t[1..]|
            ensures Fold(s[1..][i]) == Fold(t[1..][i])
          {
            assert s[1..][i] == s[i + 1] && t[1..][i] == t[i + 1];
          }
        }
      }
    }
  }

  /**
   * The query's `LIKE esc_like(term) . '%'` holds exactly when the value starts
   * with the term, case-insensitively; `%`, `_` and `\` in the term are literal.
   */
  lemma LikePrefixPattern(s: string, term: string)
    ensures Like(s, PrefixPattern(term)) <==> StartsWithCI(s, term)
  {
    ParseEscLike(term, "%");
    assert ParsePattern("%") == [AnyString];
    MatchesLitsAnyString(s, term);
  }

  /** Without `esc_like`, the term `%` would turn into a pattern every value matches. */
  lemma UnescapedPercentMatchesAll(s: string)
    ensures Like(s, "%" + "%")
  {
    var p := "%" + "%";
    assert p[0] == '%' && p[1..] == "%";
    assert ParsePattern("%") == [AnyString];
    assert ParsePattern(p) == [AnyString] + [AnyString];
    assert ([AnyString] + [AnyString])[1..] == [AnyString];
    MatchesAnyString(s);
  }
}
