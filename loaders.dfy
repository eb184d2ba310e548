/**
 * `_to_polygon_symbol`: the rewrite of an internal contract code
 * VENDOR_ROOT# (for example CME_ES1) into the continuous-contract symbol
 * C:ROOT of the price vendor.
 */
module Loaders {
  import opened Wrappers

  /** The internal codes of the traded universe. */
  const Symbols: seq<string> := [
    "CME_ES1", "CME_NQ1", "EUREX_FDAX1",
    "CME_TY1", "CME_US1", "EUREX_FGBL1",
    "CME_CL1", "CME_GC1", "ICE_KC1", "ICE_SB1"]

  /** The vendor symbols of the same universe, in the same order. */
  const SymbolsPoly: seq<string> := [
    "C:ES", "C:NQ", "C:FDAX",
    "C:TY", "C:US", "C:FGBL",
    "C:CL", "C:GC", "C:KC", "C:SB"]

  /** The number of occurrences of `c` in `s`. */
  function Count(s: string, c: char): nat
  {
    if s == [] then 0 else (if s[0] == c then 1 else 0) + Count(s[1..], c)
  }

  /** Python's `str.split(sep)` with a one-character separator: the pieces between separators. */
  function Split(s: string, sep: char): (parts: seq<string>)
    ensures |parts| == Count(s, sep) + 1
    ensures forall i :: 0 <= i < |parts| ==> sep !in parts[i]
  {
    if s == [] then [""]
    else
      var rest := Split(s[1..], sep);
      if s[0] == sep then [""] + rest
      else [[s[0]] + rest[0]] + rest[1..]
  }

  /** `sep.join(parts)`. */
  function Join(parts: seq<string>, sep: char): string
    requires |parts| >= 1
  {
    if |parts| == 1 then parts[0] else parts[0] + [sep] + Join(parts[1..], sep)
  }

  /** Joining the pieces with the separator gives back the string. */
  lemma {:induction false} JoinSplit(s: string, sep: char)
    ensures Join(Split(s, sep), sep) == s
  {
    if s != [] {
      var rest := Split(s[1..], sep);
      JoinSplit(s[1..], sep);
      if s[0] != sep {
        if |rest| == 1 {
          assert Split(s, sep) == [[s[0]] + rest[0]];
        } else {
          var parts := Split(s, sep);
          assert parts[1..] == rest[1..];
          assert Join(rest, sep) == rest[0] + [sep] + Join(rest[1..], sep);
        }
      }
    }
  }

  /** A string with no separator in it is a single piece. */
  lemma {:induction false} SplitNoSeparator(s: string, sep: char)
    requires sep !in s
    ensures Split(s, sep) == [s]
  {
    if s != [] {
      assert s[0] != sep;
      SplitNoSeparator(s[1..], sep);
      assert [s[0]] + s[1..] == s;
    }
  }

  /** Splitting two separator-free pieces joined by the separator gives back the two pieces. */
  lemma {:induction false} SplitTwo(a: string, b: string, sep: char)
    requires sep !in a && sep !in b
    ensures Split(a + [sep] + b, sep) == [a, b]
  {
    if a == [] {
      assert [] + [sep] + b == [sep] + b;
      assert ([sep] + b)[1..] == b;
      SplitNoSeparator(b, sep);
    } else {
      assert (a + [sep] + b)[1..] == a[1..] + [sep] + b;
      SplitTwo(a[1..], b, sep);
      assert [a[0]] + a[1..] == a;
    }
  }

  predicate IsDigit(c: char) { '0' <= c <= '9' }

  /**
   * `re.sub(r"\d$", "", s)`: a digit at the end is removed, and so is a
   * digit just before a final newline, since `$` also matches there. At
   * most one character goes.
   */
  function StripTrailingDigit(s: string): (r: string)
    ensures |r| == |s| || |r| + 1 == |s|
    ensures |r| + 1 == |s| <==>
      (|s| > 0 && IsDigit(s[|s| - 1])) || (|s| > 1 && s[|s| - 1] == '\n' && IsDigit(s[|s| - 2]))
  {
    var n := |s|;
    if n > 0 && IsDigit(s[n - 1]) then s[..n - 1]
    else if n > 1 && s[n - 1] == '\n' && IsDigit(s[n - 2]) then s[..n - 2] + "\n"
    else s
  }

  /** Removing a final digit keeps every other character: the result with the digit put back is the input. */
  lemma StripTrailingDigitKeepsRest(s: string)
    ensures StripTrailingDigit(s) == s || (|s| > 0 && StripTrailingDigit(s) + [s[|s| - 1]] == s)
      || (|s| > 1 && StripTrailingDigit(s)[..|s| - 2] + [s[|s| - 2], '\n'] == s)
  {
    var n := |s|;
    if n > 0 && IsDigit(s[n - 1]) {
      assert s[..n - 1] + [s[n - 1]] == s;
    } else if n > 1 && s[n - 1] == '\n' && IsDigit(s[n - 2]) {
      assert (s[..n - 2] + "\n")[..n - 2] == s[..n - 2];
      assert s[..n - 2] + [s[n - 2], '\n'] == s;
    }
  }

  /**
   * `_to_polygon_symbol`: the code must split on "_" into exactly two
   * pieces; the result is "C:" and the second piece without a trailing digit.
   */
  function ToPolygonSymbol(code: string): (r: Result<string>)
    ensures r.Err? <==> Count(code, '_') != 1
    ensures r.Err? ==> r.error == InvalidSymbol(code)
    ensures r.Ok? ==> |r.value| >= 2 && r.value[..2] == "C:"
  {
    var parts := Split(code, '_');
    if |parts| != 2 then Err(InvalidSymbol(code))
    else Ok("C:" + StripTrailingDigit(parts[1]))
  }

  /**
   * A well-formed code VENDOR_ROOT maps to "C:" and ROOT without its
   * trailing digit, whatever the vendor.
   */
  lemma ToPolygonOfParts(vendor: string, root: string)
    requires '_' !in vendor && '_' !in root
    ensures ToPolygonSymbol(vendor + "_" + root) == Ok("C:" + StripTrailingDigit(root))
  {
    SplitTwo(vendor, root, '_');
  }

  /** The result does not depend on the vendor prefix. */
  lemma VendorIrrelevant(v1: string, v2: string, root: string)
    requires '_' !in v1 && '_' !in v2 && '_' !in root
    ensures ToPolygonSymbol(v1 + "_" + root) == ToPolygonSymbol(v2 + "_" + root)
  {
    ToPolygonOfParts(v1, root);
    ToPolygonOfParts(v2, root);
  }

  /** Only one trailing digit goes: a two-digit contract number keeps its first digit. */
  lemma OnlyOneDigitStripped(vendor: string, root: string)
    requires vendor == "CME" && root == "ES12"
    ensures ToPolygonSymbol(vendor + "_" + root) == Ok("C:ES1")
  {
    ToPolygonOfParts(vendor, root);
    assert IsDigit(root[3]) && StripTrailingDigit(root) == root[..3] == "ES1";
    assert "C:" + StripTrailingDigit(root) == "C:ES1";
  }

  /** A code VENDOR_BASE1 maps to C:BASE when BASE does not end in a digit. */
  lemma FrontMonthCode(vendor: string, base: string)
    requires '_' !in vendor && '_' !in base
    requires |base| > 0 && !IsDigit(base[|base| - 1])
    ensures ToPolygonSymbol(vendor + "_" + base + "1") == Ok("C:" + base)
  {
    var root := base + "1";
    assert vendor + "_" + base + "1" == vendor + "_" + root;
    ToPolygonOfParts(vendor, root);
    assert root[..|root| - 1] == base;
  }

  /** Every code of the universe maps to the vendor symbol at the same position. */
  lemma UniverseMapsToVendorSymbols()
    ensures |Symbols| == |SymbolsPoly|
    ensures forall i :: 0 <= i < |Symbols| ==> ToPolygonSymbol(Symbols[i]) == Ok(SymbolsPoly[i])
  {
    forall i | 0 <= i < |Symbols|
      ensures ToPolygonSymbol(Symbols[i]) == Ok(SymbolsPoly[i])
    {
      var vendor := if i == 2 || i == 5 then "EUREX" else if i == 8 || i == 9 then "ICE" else "CME";
      var base := SymbolsPoly[i][2..];
      assert SymbolsPoly[i] == "C:" + base;
      assert Symbols[i] == vendor + "_" + base + "1";
      FrontMonthCode(vendor, base);
    }
  }
}
