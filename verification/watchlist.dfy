/**
 * The watchlist: the `WATCHLIST` setting split on `|`, each piece trimmed,
 * and the empty pieces dropped.
 */
module Watchlist {
  import opened Fallible
  import opened Text
  import Js

  const Separator := '|'

  /** `.map(s => s.trim())`. */
  function TrimAll(segs: seq<string>): (r: seq<string>)
    ensures |r| == |segs|
    ensures forall k :: 0 <= k < |r| ==> r[k] == Trim(segs[k])
  {
    seq(|segs|, k requires 0 <= k < |segs| => Trim(segs[k]))
  }

  /** `.filter(Boolean)` on strings: the truthy, that is non-empty, ones in their order. */
  function KeepNonEmpty(xs: seq<string>): (r: seq<string>)
    ensures |r| <= |xs|
    ensures forall k :: 0 <= k < |r| ==> r[k] != []
    decreases |xs|
  {
    if |xs| == 0 then []
    else (if Js.Truthy(Js.Str(xs[0])) then [xs[0]] else []) + KeepNonEmpty(xs[1..])
  }

  /** Filtering keeps exactly the non-empty entries. */
  lemma {:induction false} KeepNonEmptyMembers(xs: seq<string>)
    ensures forall x :: x in KeepNonEmpty(xs) <==> x in xs && x != []
    decreases |xs|
  {
    if |xs| > 0 {
      KeepNonEmptyMembers(xs[1..]);
      assert xs == [xs[0]] + xs[1..];
    }
  }

  /**
   * The watchlist a raw setting yields. Every entry is non-empty, has no
   * white space at either end and contains no separator, and there are never
   * more entries than pieces between separators.
   */
  function Parse(raw: string): (r: seq<string>)
    ensures forall k :: 0 <= k < |r| ==> r[k] != [] && Trim(r[k]) == r[k] && Separator !in r[k]
    ensures |r| <= Occurrences(Separator, raw) + 1
  {
    var segs := Split(raw, Separator);
    SplitCount(raw, Separator);
    SplitPiecesFree(raw, Separator);
    CleanEntries(segs);
    KeepNonEmpty(TrimAll(segs))
  }

  /** The trimmed, non-empty pieces are clean when no piece holds the separator. */
  lemma CleanEntries(segs: seq<string>)
    requires forall k :: 0 <= k < |segs| ==> Separator !in segs[k]
    ensures forall k :: 0 <= k < |KeepNonEmpty(TrimAll(segs))| ==>
              var e := KeepNonEmpty(TrimAll(segs))[k]; e != [] && Trim(e) == e && Separator !in e
  {
    var trimmed := TrimAll(segs);
    var r := KeepNonEmpty(trimmed);
    KeepNonEmptyMembers(trimmed);
    forall k | 0 <= k < |r| ensures Trim(r[k]) == r[k] && Separator !in r[k] {
      assert r[k] in trimmed;
      var j :| 0 <= j < |trimmed| && trimmed[j] == r[k];
      TrimIdempotent(segs[j]);
      TrimAddsNothing(segs[j], Separator);
    }
  }

  /**
   * `(process.env.WATCHLIST || "")` parsed: an unset variable falls back to
   * `""` and gives an empty watchlist. A variable set to the empty string is
   * falsy too, but `||` then yields the same `""`.
   */
  function FromEnv(env: Option<string>): (r: seq<string>)
    ensures env.None? ==> r == []
    ensures env.Some? ==> r == Parse(env.value)
  {
    match env
    case Some(setting) => Parse(setting)
    case None => ParseEmptyIff(""); Parse("")
  }

  lemma {:induction false} KeepNonEmptyAppend(xs: seq<string>, ys: seq<string>)
    ensures KeepNonEmpty(xs + ys) == KeepNonEmpty(xs) + KeepNonEmpty(ys)
    decreases |xs|
  {
    if |xs| > 0 {
      assert (xs + ys)[1..] == xs[1..] + ys;
      KeepNonEmptyAppend(xs[1..], ys);
    } else {
      assert xs + ys == ys;
    }
  }

  lemma {:induction false} KeepNonEmptyAll(xs: seq<string>)
    requires forall k :: 0 <= k < |xs| ==> xs[k] != []
    ensures KeepNonEmpty(xs) == xs
    decreases |xs|
  {
    if |xs| > 0 {
      KeepNonEmptyAll(xs[1..]);
    }
  }

  lemma TrimAllAppend(xs: seq<string>, ys: seq<string>)
    ensures TrimAll(xs + ys) == TrimAll(xs) + TrimAll(ys)
  {
    var l, r := TrimAll(xs + ys), TrimAll(xs) + TrimAll(ys);
    forall k | 0 <= k < |l| ensures l[k] == r[k] {
      if k < |xs| {
        assert (xs + ys)[k] == xs[k];
      } else {
        assert (xs + ys)[k] == ys[k - |xs|];
      }
    }
  }

  /** A string is among the trimmed pieces exactly when it is the trim of one of them. */
  lemma TrimAllMembers(segs: seq<string>, e: string)
    ensures e in TrimAll(segs) <==> exists seg :: seg in segs && Trim(seg) == e
  {
    if e in TrimAll(segs) {
      var k :| 0 <= k < |segs| && TrimAll(segs)[k] == e;
      assert segs[k] in segs;
    }
    if exists seg :: seg in segs && Trim(seg) == e {
      var seg :| seg in segs && Trim(seg) == e;
      var k :| 0 <= k < |segs| && segs[k] == seg;
      assert TrimAll(segs)[k] == e;
    }
  }

  /** An entry is in the watchlist exactly when it is the non-empty trim of a piece of the setting. */
  lemma ParseMembers(raw: string, e: string)
    ensures e in Parse(raw) <==> e != [] && exists seg :: seg in Split(raw, Separator) && Trim(seg) == e
  {
    var segs := Split(raw, Separator);
    KeepNonEmptyMembers(TrimAll(segs));
    TrimAllMembers(segs, e);
  }

  /** Parsing distributes over a separator: the entries of each side, in order. */
  lemma ParseAppend(a: string, b: string)
    ensures Parse(a + [Separator] + b) == Parse(a) + Parse(b)
  {
    var sa, sb := Split(a, Separator), Split(b, Separator);
    SplitAppend(a, b, Separator);
    TrimAllAppend(sa, sb);
    KeepNonEmptyAppend(TrimAll(sa), TrimAll(sb));
  }

  /** A setting without a separator names at most one entry: its trim, unless it is all white space. */
  lemma ParseSingle(s: string)
    requires Separator !in s
    ensures Parse(s) == if AllWhitespace(s) then [] else [Trim(s)]
  {
    SplitWithoutSep(s, Separator);
    TrimEmptyIff(s);
    assert TrimAll([s]) == [Trim(s)];
  }

  /** `s` holds nothing but separators and white space. */
  predicate Blank(s: string) {
    forall k :: 0 <= k < |s| ==> s[k] == Separator || IsWhitespace(s[k])
  }

  lemma BlankAppend(a: string, b: string)
    ensures Blank(a + [Separator] + b) <==> Blank(a) && Blank(b)
  {
    var s := a + [Separator] + b;
    assert forall k :: 0 <= k < |a| ==> s[k] == a[k];
    assert forall k :: 0 <= k < |b| ==> s[|a| + 1 + k] == b[k];
  }

  /**
   * The watchlist is empty exactly when the setting holds nothing but
   * separators and white space (in particular when it is empty).
   */
  lemma {:induction false} ParseEmptyIff(raw: string)
    ensures Parse(raw) == [] <==> Blank(raw)
    decreases |raw|
  {
    if Separator !in raw {
      ParseSingle(raw);
      assert Blank(raw) <==> AllWhitespace(raw);
    } else {
      var i :| 0 <= i < |raw| && raw[i] == Separator;
      var a, b := raw[..i], raw[i + 1..];
      assert raw == a + [Separator] + b;
      ParseAppend(a, b);
      BlankAppend(a, b);
      ParseEmptyIff(a);
      ParseEmptyIff(b);
    }
  }

  /**
   * Joining clean entries with `|` and parsing gives the entries back: a
   * watchlist survives a round trip through its setting.
   */
  lemma ParseJoin(entries: seq<string>)
    requires forall k :: 0 <= k < |entries| ==> entries[k] != [] && Trim(entries[k]) == entries[k] && Separator !in entries[k]
    ensures Parse(Join(entries, Separator)) == entries
  {
    if |entries| == 0 {
      ParseEmptyIff("");
    } else {
      SplitJoin(entries, Separator);
      assert TrimAll(entries) == entries;
      KeepNonEmptyAll(entries);
    }
  }
}
