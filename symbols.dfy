/** The string handling of the two handlers: Python's `str.split(",")`,
    `str.strip()` and `str.upper()`, and the comparison handler's parse of
    its comma-separated `symbols` argument. */
module Symbols {
  import opened RowFilter

  // ---------------------------------------------------------------------
  // str.split(sep)

  /** `s.split(sep)` with an explicit separator: every separator cuts, so
      adjacent separators give empty pieces and "" gives [""]. */
  function Split(s: string, sep: char): (parts: seq<string>)
    ensures |parts| >= 1
    ensures forall k :: 0 <= k < |parts| ==> sep !in parts[k]
  {
    if |s| == 0 then [""]
    else
      var rest := Split(s[1..], sep);
      if s[0] == sep then [""] + rest
      else [[s[0]] + rest[0]] + rest[1..]
  }

  /** `sep.join(parts)`. */
  function Join(parts: seq<string>, sep: char): string
    requires |parts| >= 1
  {
    if |parts| == 1 then parts[0] else parts[0] + [sep] + Join(parts[1..], sep)
  }

  /** How many times `c` occurs in `s`. */
  function Occurrences(s: string, c: char): nat {
    if |s| == 0 then 0 else (if s[0] == c then 1 else 0) + Occurrences(s[1..], c)
  }

  /** Joining the pieces with the separator gives back the string. */
  lemma {:induction false} JoinSplit(s: string, sep: char)
    ensures Join(Split(s, sep), sep) == s
  {
    if |s| > 0 {
      var rest := Split(s[1..], sep);
      JoinSplit(s[1..], sep);
      if s[0] != sep {
        if |rest| == 1 {
          assert Split(s, sep) == [[s[0]] + rest[0]];
        } else {
          assert Split(s, sep)[1..] == rest[1..];
        }
      }
    }
  }

  /** Splitting a join of separator-free pieces gives back the pieces. */
  lemma {:induction false} SplitJoin(parts: seq<string>, sep: char)
    requires |parts| >= 1
    requires forall k :: 0 <= k < |parts| ==> sep !in parts[k]
    ensures Split(Join(parts, sep), sep) == parts
  {
    if |parts| == 1 {
      SplitFree(parts[0], sep);
    } else {
      SplitJoin(parts[1..], sep);
      SplitAfterFree(parts[0], Join(parts[1..], sep), sep);
      assert [parts[0]] + parts[1..] == parts;
    }
  }

  /** A string without the separator is one piece. */
  lemma {:induction false} SplitFree(s: string, sep: char)
    requires sep !in s
    ensures Split(s, sep) == [s]
  {
    if |s| > 0 {
      SplitFree(s[1..], sep);
      assert [s[0]] + s[1..] == s;
    }
  }

  /** A separator-free head followed by a separator becomes the first piece. */
  lemma {:induction false} SplitAfterFree(head: string, tail: string, sep: char)
    requires sep !in head
    ensures Split(head + [sep] + tail, sep) == [head] + Split(tail, sep)
  {
    if |head| == 0 {
      assert head + [sep] + tail == [sep] + tail;
      assert ([sep] + tail)[1..] == tail;
    } else {
      var s := head + [sep] + tail;
      assert s[1..] == head[1..] + [sep] + tail;
      SplitAfterFree(head[1..], tail, sep);
      assert [head[0]] + head[1..] == head;
    }
  }

  /** There is one piece more than there are separators. */
  lemma {:induction false} SplitCount(s: string, sep: char)
    ensures |Split(s, sep)| == Occurrences(s, sep) + 1
  {
    if |s| > 0 {
      SplitCount(s[1..], sep);
    }
  }

  // ---------------------------------------------------------------------
  // str.strip()

  /** Python's `str.isspace()` on one character. */
  predicate IsSpace(c: char) {
    c == ' ' || ('\t' <= c <= '\r') || ('\U{1c}' <= c <= '\U{1f}') || c == '\U{85}' || c == '\U{a0}'
    || c == '\U{1680}' || ('\U{2000}' <= c <= '\U{200a}') || c == '\U{2028}' || c == '\U{2029}'
    || c == '\U{202f}' || c == '\U{205f}' || c == '\U{3000}'
  }

  predicate Blank(s: string) {
    forall i :: 0 <= i < |s| ==> IsSpace(s[i])
  }

  function TrimLeft(s: string): (r: string)
    ensures |r| <= |s| && r == s[|s| - |r|..]
    ensures forall i :: 0 <= i < |s| - |r| ==> IsSpace(s[i])
    ensures |r| > 0 ==> !IsSpace(r[0])
  {
    if |s| > 0 && IsSpace(s[0]) then TrimLeft(s[1..]) else s
  }

  function TrimRight(s: string): (r: string)
    ensures |r| <= |s| && r == s[..|r|]
    ensures forall i :: |r| <= i < |s| ==> IsSpace(s[i])
    ensures |r| > 0 ==> !IsSpace(r[|r| - 1])
  {
    if |s| > 0 && IsSpace(s[|s| - 1]) then TrimRight(s[..|s| - 1]) else s
  }

  /** `s.strip()`: without the whitespace at both ends. */
  function Strip(s: string): string {
    TrimRight(TrimLeft(s))
  }

  /** Where the stripped text starts in `s`. */
  function StripStart(s: string): (a: nat)
    ensures a <= |s|
  {
    |s| - |TrimLeft(s)|
  }

  /** The stripped string is the part of `s` between a blank prefix and a
      blank suffix, and it starts and ends with a non-space. */
  lemma StripShape(s: string)
    ensures var r, a := Strip(s), StripStart(s);
      && a + |r| <= |s| && r == s[a..a + |r|]
      && (forall i :: 0 <= i < a ==> IsSpace(s[i]))
      && (forall i :: a + |r| <= i < |s| ==> IsSpace(s[i]))
      && (|r| > 0 ==> !IsSpace(r[0]) && !IsSpace(r[|r| - 1]))
  {
    var t := TrimLeft(s);
    var r := TrimRight(t);
    var a := |s| - |t|;
    assert s[a + |r|..] == t[|r|..];
  }

  /** A piece strips to "" exactly when it is all whitespace. */
  lemma StripEmpty(s: string)
    ensures Strip(s) == "" <==> Blank(s)
  {
    var t := TrimLeft(s);
    if Strip(s) == "" {
      assert s == s[..|s| - |t|] + t;
    }
  }

  /** Stripping twice is stripping once. */
  lemma StripIdempotent(s: string)
    ensures Strip(Strip(s)) == Strip(s)
  {
  }

  // ---------------------------------------------------------------------
  // str.upper()

  function UpperChar(c: char): char {
    if 'a' <= c <= 'z' then (c as int - 'a' as int + 'A' as int) as char else c
  }

  /** `s.upper()` on the ASCII letters. */
  function Upper(s: string): (r: string)
    ensures |r| == |s|
    ensures forall i :: 0 <= i < |s| ==> r[i] == UpperChar(s[i])
  {
    seq(|s|, i requires 0 <= i < |s| => UpperChar(s[i]))
  }

  /** No lower-case ASCII letter survives, every other character is kept, and
      upper-casing twice is upper-casing once. */
  lemma UpperProperties(s: string)
    ensures forall i :: 0 <= i < |s| ==> !('a' <= Upper(s)[i] <= 'z')
    ensures forall i :: 0 <= i < |s| && !('a' <= s[i] <= 'z') ==> Upper(s)[i] == s[i]
    ensures Upper(Upper(s)) == Upper(s)
  {
  }

  // ---------------------------------------------------------------------
  // The comparison handler's symbol list

  predicate NonBlank(p: string) {
    Strip(p) != ""
  }

  /** `[s.strip().upper() for s in symbols.split(",") if s.strip()]`. */
  function ParseSymbols(arg: string): (syms: seq<string>)
    ensures |syms| == |DropUndefined(Split(arg, ','), NonBlank)|
  {
    var kept := DropUndefined(Split(arg, ','), NonBlank);
    seq(|kept|, k requires 0 <= k < |kept| => Upper(Strip(kept[k])))
  }

  /** The parsed list keeps the order of the pieces: the k-th symbol is the
      upper-cased, stripped k-th non-blank piece, and a piece is skipped
      exactly when it is all whitespace. */
  lemma ParseSymbolsOrder(arg: string)
    ensures var pieces, ix, syms := Split(arg, ','), SurvivingIndices(Split(arg, ','), NonBlank), ParseSymbols(arg);
      && |syms| == |ix|
      && StrictlyAscending(ix)
      && (forall k :: 0 <= k < |ix| ==> ix[k] < |pieces| && syms[k] == Upper(Strip(pieces[ix[k]])))
      && (forall i :: 0 <= i < |pieces| ==> (i in ix <==> !Blank(pieces[i])))
  {
    var pieces := Split(arg, ',');
    DropUndefinedSurvivors(pieces, NonBlank);
    forall i | 0 <= i < |pieces| ensures NonBlank(pieces[i]) <==> !Blank(pieces[i]) {
      StripEmpty(pieces[i]);
    }
  }

  /** No parsed symbol is empty, holds a comma, or starts or ends with
      whitespace. */
  lemma ParseSymbolsClean(arg: string)
    ensures forall k :: 0 <= k < |ParseSymbols(arg)| ==> SymbolClean(ParseSymbols(arg)[k])
  {
    var pieces := Split(arg, ',');
    var kept := DropUndefined(pieces, NonBlank);
    DropUndefinedSurvivors(pieces, NonBlank);
    forall k | 0 <= k < |kept| ensures SymbolClean(ParseSymbols(arg)[k]) {
      var ix := SurvivingIndices(pieces, NonBlank);
      assert kept[k] == pieces[ix[k]];
      StrippedPieceClean(kept[k]);
    }
  }

  predicate SymbolClean(sym: string) {
    sym != "" && ',' !in sym && !IsSpace(sym[0]) && !IsSpace(sym[|sym| - 1])
  }

  lemma StrippedPieceClean(p: string)
    requires ',' !in p && NonBlank(p)
    ensures SymbolClean(Upper(Strip(p)))
  {
    var r, a := Strip(p), StripStart(p);
    StripShape(p);
    UpperKeepsSpaces(r);
    assert forall j :: 0 <= j < |r| ==> r[j] == p[a + j];
  }

  /** Upper-casing keeps whitespace and commas where they are. */
  lemma UpperKeepsSpaces(s: string)
    ensures forall i :: 0 <= i < |s| ==> (IsSpace(Upper(s)[i]) <==> IsSpace(s[i]))
    ensures forall i :: 0 <= i < |s| ==> (Upper(s)[i] == ',' <==> s[i] == ',')
  {
  }

  // ---------------------------------------------------------------------
  // When the parse leaves nothing

  /** Every character of `s` is the separator or whitespace. */
  predicate OnlySeparators(s: string, sep: char) {
    forall i :: 0 <= i < |s| ==> s[i] == sep || IsSpace(s[i])
  }

  lemma OnlySeparatorsConcat(a: string, b: string, sep: char)
    ensures OnlySeparators(a + b, sep) <==> OnlySeparators(a, sep) && OnlySeparators(b, sep)
  {
    if OnlySeparators(a, sep) && OnlySeparators(b, sep) {
      forall i | 0 <= i < |a + b| ensures (a + b)[i] == sep || IsSpace((a + b)[i]) {
        if i >= |a| { assert (a + b)[i] == b[i - |a|]; }
      }
    }
    if OnlySeparators(a + b, sep) {
      forall i | 0 <= i < |a| ensures a[i] == sep || IsSpace(a[i]) {
        assert (a + b)[i] == a[i];
      }
      forall i | 0 <= i < |b| ensures b[i] == sep || IsSpace(b[i]) {
        assert (a + b)[|a| + i] == b[i];
      }
    }
  }

  /** A join of separator-free pieces holds nothing but separators and
      whitespace exactly when every piece is blank. */
  lemma {:induction false} JoinOnlySeparators(parts: seq<string>, sep: char)
    requires |parts| >= 1
    requires forall k :: 0 <= k < |parts| ==> sep !in parts[k]
    ensures OnlySeparators(Join(parts, sep), sep) <==> forall k :: 0 <= k < |parts| ==> Blank(parts[k])
  {
    assert OnlySeparators(parts[0], sep) <==> Blank(parts[0]) by {
      assert forall i :: 0 <= i < |parts[0]| ==> parts[0][i] != sep;
    }
    if |parts| > 1 {
      JoinOnlySeparators(parts[1..], sep);
      OnlySeparatorsConcat(parts[0], [sep], sep);
      OnlySeparatorsConcat(parts[0] + [sep], Join(parts[1..], sep), sep);
      assert forall k :: 1 <= k < |parts| ==> parts[k] == parts[1..][k - 1];
    }
  }

  /** The parse yields no symbol exactly when the argument holds nothing but
      commas and whitespace. */
  lemma ParseSymbolsEmpty(arg: string)
    ensures ParseSymbols(arg) == [] <==> OnlySeparators(arg, ',')
  {
    var pieces := Split(arg, ',');
    var ix := SurvivingIndices(pieces, NonBlank);
    ParseSymbolsOrder(arg);
    JoinSplit(arg, ',');
    JoinOnlySeparators(pieces, ',');
    if ParseSymbols(arg) != [] {
      assert ix[0] in ix;
    }
  }
}
