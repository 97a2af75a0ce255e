/** Shared vocabulary: optional values, results, the bounded JSON list files the
    application keeps on disk, and the pieces of Python string behaviour that the
    validators and the form handling rely on (whitespace, `strip`, slicing,
    substring tests). */
module Basics {

  datatype Option<+T> = None | Some(value: T)

  datatype Result<+T, +E> = Ok(value: T) | Err(error: E)

  function Min(a: int, b: int): int { if a <= b then a else b }

  function Max(a: int, b: int): int { if a <= b then b else a }

  // ---------------------------------------------------------------------------
  // Bounded JSON list files (audit log, backup operations log, alert log)
  // ---------------------------------------------------------------------------

  /** `xs[-n:]`: the newest `n` elements, or all of them when there are fewer. */
  function KeepLast<T>(s: seq<T>, n: nat): (r: seq<T>)
    ensures |r| == Min(|s|, n)
    ensures r == s[|s| - |r|..]
  {
    if |s| > n then s[|s| - n..] else s
  }

  /** What a JSON list file holds when the program opens it: no file, a file that
      does not load as a list, or a list of entries. */
  datatype LogFile<T> = Missing | Corrupt | Entries(entries: seq<T>)

  /** The entries a reader sees: an absent or unreadable file reads as empty. */
  function Loaded<T>(f: LogFile<T>): seq<T>
  {
    if f.Entries? then f.entries else []
  }

  /** One read-modify-write of a log file: load it (an absent file is an empty
      list), append `e`, keep the newest `cap` entries, write the list back. A
      corrupt file makes the load raise before anything is written, and a write
      that fails leaves the file as it was; callers swallow both. */
  function AppendToLog<T>(f: LogFile<T>, e: T, cap: nat, writable: bool): LogFile<T>
  {
    if f.Corrupt? || !writable then f
    else Entries(KeepLast(Loaded(f) + [e], cap))
  }

  /** `r` is `before ++ [e]` cut to its newest `cap` entries: it ends with `e`,
      has length min(|before| + 1, cap), and is the whole of `before ++ [e]` when
      that fits. */
  ghost predicate AppendedWithin<T>(before: seq<T>, e: T, cap: nat, r: seq<T>)
  {
    && |r| == Min(|before| + 1, cap)
    && 0 < |r| <= |before| + 1
    && r[|r| - 1] == e
    && r == (before + [e])[|before| + 1 - |r|..]
    && (|before| < cap ==> r == before + [e])
  }

  lemma KeepLastAppended<T>(before: seq<T>, e: T, cap: nat)
    requires cap > 0
    ensures AppendedWithin(before, e, cap, KeepLast(before + [e], cap))
  {
    var full := before + [e];
    var r := KeepLast(full, cap);
    if |full| > cap {
      assert r == full[|full| - cap..] && |r| == cap;
      assert r[cap - 1] == full[|full| - 1] == e;
    } else {
      assert r == full;
      assert r[|r| - 1] == e;
    }
  }

  /** After an append to a readable, writable file the list is the old one with
      the entry appended and cut to the cap; otherwise the file is unchanged. */
  lemma AppendToLogSpec<T>(f: LogFile<T>, e: T, cap: nat, writable: bool)
    requires cap > 0
    ensures f.Corrupt? || !writable ==> AppendToLog(f, e, cap, writable) == f
    ensures !f.Corrupt? && writable ==>
      AppendToLog(f, e, cap, writable).Entries? && AppendedWithin(Loaded(f), e, cap, AppendToLog(f, e, cap, writable).entries)
  {
    if !f.Corrupt? && writable {
      KeepLastAppended(Loaded(f), e, cap);
    }
  }

  /** Appending never makes a readable file longer than its cap. */
  lemma AppendToLogBounded<T>(f: LogFile<T>, e: T, cap: nat, writable: bool)
    ensures |Loaded(AppendToLog(f, e, cap, writable))| <= Max(|Loaded(f)|, cap)
  {
  }

  // ---------------------------------------------------------------------------
  // Python string behaviour
  // ---------------------------------------------------------------------------

  /** The characters for which Python's `str.isspace()` holds; the regular
      expression class `\s` on `str` patterns matches the same characters. */
  predicate IsSpace(c: char)
  {
    || ('\t' <= c <= '\r')
    || ('\U{1C}' <= c <= '\U{1F}')
    || c == ' ' || c == '\U{85}' || c == '\U{A0}' || c == '\U{1680}'
    || ('\U{2000}' <= c <= '\U{200A}')
    || c == '\U{2028}' || c == '\U{2029}' || c == '\U{202F}' || c == '\U{205F}'
    || c == '\U{3000}'
  }

  predicate IsAsciiDigit(c: char) { '0' <= c <= '9' }

  predicate IsAsciiLetter(c: char) { 'a' <= c <= 'z' || 'A' <= c <= 'Z' }

  /** Python's `str.lstrip()` with no argument. */
  function StripLeft(s: string): string
  {
    if |s| > 0 && IsSpace(s[0]) then StripLeft(s[1..]) else s
  }

  /** Python's `str.rstrip()` with no argument. */
  function StripRight(s: string): string
  {
    if |s| > 0 && IsSpace(s[|s| - 1]) then StripRight(s[..|s| - 1]) else s
  }

  /** Python's `str.strip()` with no argument. */
  function Strip(s: string): string
  {
    StripRight(StripLeft(s))
  }

  /** `lstrip` leaves a suffix of its input that does not start with
      whitespace, and what it drops is whitespace. */
  lemma {:induction false} StripLeftSpec(s: string)
    ensures var r := StripLeft(s);
      && |r| <= |s| && r == s[|s| - |r|..]
      && (r == [] || !IsSpace(r[0]))
      && (forall k :: 0 <= k < |s| - |r| ==> IsSpace(s[k]))
  {
    if |s| > 0 && IsSpace(s[0]) {
      StripLeftSpec(s[1..]);
      var r := StripLeft(s[1..]);
      assert s[|s| - |r|..] == s[1..][|s| - 1 - |r|..];
      forall k | 0 < k < |s| - |r| ensures IsSpace(s[k]) {
        assert s[k] == s[1..][k - 1];
      }
    }
  }

  /** `rstrip` leaves a prefix of its input that does not end with
      whitespace, and what it drops is whitespace. */
  lemma {:induction false} StripRightSpec(s: string)
    ensures var r := StripRight(s);
      && |r| <= |s| && r == s[..|r|]
      && (r == [] || !IsSpace(r[|r| - 1]))
      && (forall k :: |r| <= k < |s| ==> IsSpace(s[k]))
  {
    if |s| > 0 && IsSpace(s[|s| - 1]) {
      StripRightSpec(s[..|s| - 1]);
      var r := StripRight(s[..|s| - 1]);
      assert s[..|r|] == s[..|s| - 1][..|r|];
      forall k | |r| <= k < |s| - 1 ensures IsSpace(s[k]) {
        assert s[k] == s[..|s| - 1][k];
      }
    }
  }

  /** `strip` keeps one contiguous piece of its input, the one starting after
      the leading whitespace; it drops only whitespace around that piece and
      leaves no whitespace at either end. */
  lemma StripSpec(s: string)
    ensures var i, r := |s| - |StripLeft(s)|, Strip(s);
      && 0 <= i <= i + |r| <= |s| && r == s[i..i + |r|]
      && (forall k :: 0 <= k < i ==> IsSpace(s[k]))
      && (forall k :: i + |r| <= k < |s| ==> IsSpace(s[k]))
      && (r == [] || (!IsSpace(r[0]) && !IsSpace(r[|r| - 1])))
  {
    var l := StripLeft(s);
    var r := StripRight(l);
    var i := |s| - |l|;
    StripLeftSpec(s);
    StripRightSpec(l);
    assert r == s[i..i + |r|] by {
      assert l == s[i..] && r == l[..|r|];
    }
    forall k | i + |r| <= k < |s| ensures IsSpace(s[k]) {
      assert s[k] == l[k - i];
    }
    if r != [] {
      assert r[0] == l[0];
    }
  }

  /** Stripping twice is stripping once. */
  lemma StripIdempotent(s: string)
    ensures Strip(Strip(s)) == Strip(s)
  {
    var r := Strip(s);
    StripSpec(s);
    assert StripLeft(r) == r;
    assert StripRight(r) == r;
  }

  /** Python's `s[:n]` for any integer n (a negative n counts from the end). */
  function PrefixSlice(s: string, n: int): (r: string)
    ensures |r| == if n >= 0 then Min(n, |s|) else Max(0, |s| + n)
    ensures r == s[..|r|]
  {
    if n >= 0 then (if n <= |s| then s[..n] else s)
    else if |s| + n >= 0 then s[..|s| + n] else []
  }

  predicate StartsWith(s: string, prefix: string)
  {
    |prefix| <= |s| && s[..|prefix|] == prefix
  }

  /** Python's `needle in haystack` for strings. */
  predicate Contains(haystack: string, needle: string)
  {
    exists i | 0 <= i <= |haystack| - |needle| :: OccursAt(haystack, needle, i)
  }

  predicate OccursAt(haystack: string, needle: string, i: int)
    requires 0 <= i <= |haystack| - |needle|
  {
    haystack[i..i + |needle|] == needle
  }

  /** A string contains every string that leads one of its suffixes. */
  lemma ContainsAt(haystack: string, needle: string, i: int)
    requires 0 <= i <= |haystack| - |needle| && OccursAt(haystack, needle, i)
    ensures Contains(haystack, needle)
  {
  }

  function LowerChar(c: char): char
  {
    if 'A' <= c <= 'Z' then (c as int + 32) as char else c
  }

  /** Lower-casing, restricted to ASCII letters. */
  function Lower(s: string): (r: string)
    ensures |r| == |s| && forall i :: 0 <= i < |s| ==> r[i] == LowerChar(s[i])
  {
    seq(|s|, i requires 0 <= i < |s| => LowerChar(s[i]))
  }
}
