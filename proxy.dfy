/**
 * The route gate's path matcher of proxy.ts: the request paths on which the
 * authentication middleware runs.
 *
 * The matcher is the JavaScript regular expression
 *   /((?!api|_next/static|_next/image|.*\.png$).*)
 * applied to the whole request path. `RegexAccepts` follows the expression's
 * structure (a list of lookahead alternatives, `.` excluding line
 * terminators); `Matched` is the same set of paths written as plain string
 * tests, and `MatchedIffRegex` proves the two agree.
 */
module Proxy {
  import opened JsText

  /** Characters JavaScript's `.` does not match (without the `s` flag). */
  predicate IsLineTerminator(c: char) {
    c == '\n' || c == '\r' || c == '\U{2028}' || c == '\U{2029}'
  }

  /** `.*` can consume all of `s`. */
  predicate DotStar(s: string) {
    forall i :: 0 <= i < |s| ==> !IsLineTerminator(s[i])
  }

  /** One alternative inside the negative lookahead. */
  datatype Alternative =
    | Literal(text: string)          // a fixed text, e.g. `api`
    | AnyThenAtEnd(suffix: string)   // `.*` then a fixed text then `$`, e.g. `.*\.png$`

  /** The alternatives of the matcher's lookahead, in source order. */
  const Exclusions: seq<Alternative> :=
    [Literal("api"), Literal("_next/static"), Literal("_next/image"), AnyThenAtEnd(".png")]

  /** Whether alternative `a` matches at the start of `r`. */
  predicate AltMatches(a: Alternative, r: string) {
    match a
    case Literal(t) => StartsWith(r, t)
    case AnyThenAtEnd(t) => exists k :: 0 <= k <= |r| && DotStar(r[..k]) && r[k..] == t
  }

  /** Whether some alternative of `alts` matches at the start of `r`, tried left to right. */
  predicate AnyAlternative(alts: seq<Alternative>, r: string)
    decreases |alts|
  {
    |alts| > 0 && (AltMatches(alts[0], r) || AnyAlternative(alts[1..], r))
  }

  /** The whole path matches `/((?!alternatives).*)`. */
  predicate RegexAccepts(path: string) {
    |path| >= 1 && path[0] == '/'
    && !AnyAlternative(Exclusions, path[1..])
    && DotStar(path[1..])
  }

  /**
   * The gate runs on `path`: it starts with `/`, and what follows the slash
   * has no line terminator, does not start with `api`, `_next/static` or
   * `_next/image`, and does not end with `.png` (case-sensitively).
   */
  predicate Matched(path: string) {
    && |path| >= 1 && path[0] == '/'
    && var r := path[1..];
    && DotStar(r)
    && !StartsWith(r, "api")
    && !StartsWith(r, "_next/static")
    && !StartsWith(r, "_next/image")
    && !EndsWith(r, ".png")
  }

  /** Left-to-right alternation matches exactly when some alternative does. */
  lemma {:induction false} AnyAlternativeExists(alts: seq<Alternative>, r: string)
    ensures AnyAlternative(alts, r) <==> exists a :: a in alts && AltMatches(a, r)
    decreases |alts|
  {
    if |alts| > 0 {
      AnyAlternativeExists(alts[1..], r);
      assert forall a :: a in alts <==> a == alts[0] || a in alts[1..];
    }
  }

  /** Reordering the lookahead's alternatives does not change which texts it excludes. */
  lemma AlternativeOrderIrrelevant(alts1: seq<Alternative>, alts2: seq<Alternative>, r: string)
    requires multiset(alts1) == multiset(alts2)
    ensures AnyAlternative(alts1, r) == AnyAlternative(alts2, r)
  {
    AnyAlternativeExists(alts1, r);
    AnyAlternativeExists(alts2, r);
    assert forall a :: a in alts1 <==> a in multiset(alts1);
    assert forall a :: a in alts2 <==> a in multiset(alts2);
  }

  /** When `.*` can consume `r`, `.*` followed by `t` and `$` matches exactly when `r` ends with `t`. */
  lemma AnyThenAtEndIsSuffix(r: string, t: string)
    requires DotStar(r)
    ensures AltMatches(AnyThenAtEnd(t), r) <==> EndsWith(r, t)
  {
  }

  /** The explicit predicate and the regular expression accept the same paths. */
  lemma MatchedIffRegex(path: string)
    ensures Matched(path) <==> RegexAccepts(path)
  {
  }

  /** Any path whose remainder starts with `api` is skipped: `/api`, `/api/x`, and `/apiary` too. */
  lemma ApiPrefixNotGated(rest: string)
    ensures !Matched("/api" + rest)
  {
  }

  /** Paths under `/_next/static` and `/_next/image` (with no separator required) are skipped. */
  lemma NextAssetsNotGated(rest: string)
    ensures !Matched("/_next/static" + rest)
    ensures !Matched("/_next/image" + rest)
  {
    assert ("/_next/static" + rest)[1..][..12] == "_next/static";
    assert ("/_next/image" + rest)[1..][..11] == "_next/image";
  }

  /** A path ending in `.png` is skipped at any depth. */
  lemma PngNotGated(stem: string)
    ensures !Matched("/" + stem + ".png")
  {
  }

  /** Lower-case `.png` only: the upper-case extension and the ordinary pages are gated, `/` included. */
  lemma GatedExamples()
    ensures Matched("/x.PNG")
    ensures Matched("/")
    ensures Matched("/dashboard")
    ensures Matched("/login")
    ensures !Matched("/apiary")
    ensures !Matched("/_next/static/chunk.js")
  {
    assert "/x.PNG"[1..][..3] == "x.P";
    assert "/x.PNG"[1..][1..] == ".PNG";
    assert "/dashboard"[1..][..3] == "das";
    assert "/login"[1..][..3] == "log";
    ApiPrefixNotGated("ary");
    NextAssetsNotGated("/chunk.js");
  }

  /** A path whose remainder holds a line terminator is never matched, since `.*` cannot cross it. */
  lemma LineTerminatorNotGated(path: string, i: int)
    requires 1 <= i < |path| && IsLineTerminator(path[i])
    ensures !Matched(path)
  {
  }
}
