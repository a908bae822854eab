/**
 * The handful of java.lang.String and java.lang.Integer operations the lobby
 * protocol relies on, written out exactly: String.trim, String.split(":"),
 * String.indexOf(char), String.replace(char, char), the decimal text of an
 * int ("" + i) and Integer.parseInt.
 */
module JavaText {

  datatype Option<+T> = None | Some(value: T)

  const MinInt: int := -0x8000_0000
  const MaxInt: int := 0x7fff_ffff

  // ---------------------------------------------------------------------------
  // String.trim(): strips every leading and trailing char whose code is <= U+0020.

  predicate IsTrimmable(c: char) { c <= ' ' }

  function TrimStart(s: string): string
  {
    if s != [] && IsTrimmable(s[0]) then TrimStart(s[1..]) else s
  }

  function TrimEnd(s: string): string
  {
    if s != [] && IsTrimmable(s[|s| - 1]) then TrimEnd(s[..|s| - 1]) else s
  }

  function Trim(s: string): string
  {
    TrimEnd(TrimStart(s))
  }

  /** TrimStart drops exactly the leading blanks: what is left is a suffix of
      the input that is empty or starts with a non-blank. */
  lemma {:induction false} TrimStartShape(s: string)
    ensures var r := TrimStart(s);
      && |r| <= |s| && r == s[|s| - |r|..]
      && (r == [] || !IsTrimmable(r[0]))
      && (forall i :: 0 <= i < |s| - |r| ==> IsTrimmable(s[i]))
  {
    if s != [] && IsTrimmable(s[0]) {
      var t := s[1..];
      TrimStartShape(t);
      var r := TrimStart(t);
      assert TrimStart(s) == r;
      assert t[|t| - |r|..] == s[|s| - |r|..];
      forall i | 0 <= i < |s| - |r| ensures IsTrimmable(s[i]) {
        if i > 0 {
          assert s[i] == t[i - 1];
        }
      }
    }
  }

  /** TrimEnd drops exactly the trailing blanks. */
  lemma {:induction false} TrimEndShape(s: string)
    ensures var r := TrimEnd(s);
      && |r| <= |s| && r == s[..|r|]
      && (r == [] || !IsTrimmable(r[|r| - 1]))
      && (forall i :: |r| <= i < |s| ==> IsTrimmable(s[i]))
  {
    if s != [] && IsTrimmable(s[|s| - 1]) {
      var t := s[..|s| - 1];
      TrimEndShape(t);
      var r := TrimEnd(t);
      assert TrimEnd(s) == r;
      assert t[..|r|] == s[..|r|];
      forall i | |r| <= i < |s| ensures IsTrimmable(s[i]) {
        if i < |s| - 1 {
          assert s[i] == t[i];
        }
      }
    }
  }

  /** Trim only removes blanks: the result is the input with a blank prefix and
      a blank suffix cut off, it starts and ends with a non-blank, and nothing
      non-blank of the input is lost. */
  lemma TrimShape(s: string)
    ensures var r := Trim(s);
      var a := |s| - |TrimStart(s)|;
      && 0 <= a && a + |r| <= |s| && r == s[a..a + |r|]
      && (forall i :: 0 <= i < a ==> IsTrimmable(s[i]))
      && (forall i :: a + |r| <= i < |s| ==> IsTrimmable(s[i]))
      && (r == [] || (!IsTrimmable(r[0]) && !IsTrimmable(r[|r| - 1])))
      && (forall i :: 0 <= i < |s| && !IsTrimmable(s[i]) ==> r != [])
  {
    var t := TrimStart(s);
    var r := TrimEnd(t);
    TrimStartShape(s);
    TrimEndShape(t);
    var a := |s| - |t|;
    forall i | a + |r| <= i < |s| ensures IsTrimmable(s[i]) {
      assert s[i] == t[i - a];
    }
    if r != [] {
      assert r[0] == t[0];
    }
    forall i | 0 <= i < |s| && !IsTrimmable(s[i]) ensures r != [] {
      var j := i - (|s| - |t|);
      assert 0 <= j < |t| && t[j] == s[i];
    }
  }

  /** Trim leaves nothing exactly when every char is blank. */
  lemma TrimEmpty(s: string)
    ensures Trim(s) == [] <==> forall i :: 0 <= i < |s| ==> IsTrimmable(s[i])
  {
    TrimShape(s);
    var r := Trim(s);
    if r != [] {
      var a := |s| - |TrimStart(s)|;
      assert r[0] == s[a];
    }
  }

  /** A string that is empty or already starts and ends with non-blanks is left alone. */
  lemma TrimUnchanged(s: string)
    requires s == [] || (!IsTrimmable(s[0]) && !IsTrimmable(s[|s| - 1]))
    ensures Trim(s) == s
  {
    assert TrimStart(s) == s;
  }

  // ---------------------------------------------------------------------------
  // String.split(":"): cut at every colon, then drop the trailing empty strings;
  // a string without any colon comes back as the one-element array [s].

  function Join(parts: seq<string>): string
  {
    if parts == [] then ""
    else if |parts| == 1 then parts[0]
    else parts[0] + ":" + Join(parts[1..])
  }

  predicate NoColon(s: string) { forall i :: 0 <= i < |s| ==> s[i] != ':' }

  /** Every piece between colons, empty pieces included. */
  function Fields(s: string): (r: seq<string>)
    ensures |r| >= 1
    decreases |s|
  {
    if s == [] then [""]
    else
      var rest := Fields(s[1..]);
      if s[0] == ':' then [""] + rest
      else [[s[0]] + rest[0]] + rest[1..]
  }

  /** The pieces are colon-free and, joined with colons, give the input back. */
  lemma {:induction false} FieldsShape(s: string)
    ensures forall i :: 0 <= i < |Fields(s)| ==> NoColon(Fields(s)[i])
    ensures Join(Fields(s)) == s
    decreases |s|
  {
    if s != [] {
      var rest := Fields(s[1..]);
      FieldsShape(s[1..]);
      var r := Fields(s);
      if s[0] == ':' {
        assert r[1..] == rest;
      } else {
        assert r[1..] == rest[1..];
        assert s == [s[0]] + s[1..];
        if |rest| == 1 {
          assert Join(r) == r[0] == [s[0]] + rest[0];
        } else {
          assert Join(rest) == rest[0] + ":" + Join(rest[1..]);
          assert Join(r) == r[0] + ":" + Join(rest[1..]);
        }
        forall i | 0 <= i < |r| ensures NoColon(r[i]) {
          if i == 0 {
            assert r[0] == [s[0]] + rest[0];
          } else {
            assert r[i] == rest[i];
          }
        }
      }
    }
  }

  function DropTrailingEmpty(parts: seq<string>): seq<string>
  {
    if parts != [] && parts[|parts| - 1] == "" then DropTrailingEmpty(parts[..|parts| - 1])
    else parts
  }

  /** Only trailing empty pieces are dropped, and all of them are. */
  lemma {:induction false} DropTrailingEmptyShape(parts: seq<string>)
    ensures var r := DropTrailingEmpty(parts);
      && |r| <= |parts| && r == parts[..|r|]
      && (r == [] || r[|r| - 1] != "")
      && (forall i :: |r| <= i < |parts| ==> parts[i] == "")
  {
    if parts != [] && parts[|parts| - 1] == "" {
      var p := parts[..|parts| - 1];
      DropTrailingEmptyShape(p);
      var r := DropTrailingEmpty(p);
      assert p[..|r|] == parts[..|r|];
    }
  }

  /** Joined pieces start with the first piece and end with the last. */
  lemma {:induction false} JoinEnds(parts: seq<string>)
    requires |parts| >= 1
    ensures var j := Join(parts); var last := parts[|parts| - 1];
      && parts[0] <= j
      && |last| <= |j| && j[|j| - |last|..] == last
    decreases |parts|
  {
    if |parts| > 1 {
      JoinEnds(parts[1..]);
      var tail := Join(parts[1..]);
      var j := Join(parts);
      assert j == parts[0] + ":" + tail;
      assert j[|j| - |tail|..] == tail;
    }
  }

  /** What a message built by joining fields reads back as, once trimmed and
      split: the fields themselves, as long as none has a colon and the text
      neither starts nor ends with a blank or an empty field. */
  lemma SplitTrimJoin(parts: seq<string>)
    requires |parts| >= 1
    requires forall i :: 0 <= i < |parts| ==> NoColon(parts[i])
    requires parts[0] != [] && !IsTrimmable(parts[0][0])
    requires var last := parts[|parts| - 1]; last != [] && !IsTrimmable(last[|last| - 1])
    ensures Split(Trim(Join(parts))) == parts
  {
    JoinEnds(parts);
    var j := Join(parts);
    var last := parts[|parts| - 1];
    assert j[0] == parts[0][0];
    assert j[|j| - 1] == last[|last| - 1];
    TrimUnchanged(j);
    SplitJoin(parts);
  }

  /** The tag of a message survives trimming and splitting whatever follows it:
      trailing blanks stop at the colon and trailing empties at the tag. */
  lemma SplitHead(tag: string, rest: string)
    requires tag != [] && NoColon(tag) && !IsTrimmable(tag[0])
    ensures var parts := Split(Trim(tag + ":" + rest)); parts != [] && parts[0] == tag
  {
    var s := tag + ":" + rest;
    TrimStartShape(s);
    var t := TrimStart(s);
    assert s[0] == tag[0];
    assert |t| == |s|;
    assert t == s;
    TrimEndShape(s);
    var r := Trim(s);
    assert r == s[..|r|];
    assert s[|tag|] == ':';
    assert |tag| < |r|;
    var r2 := r[|tag| + 1..];
    assert r == tag + ":" + r2;
    FieldsCons(tag, r2);
    assert r[|tag|] == ':';
    var f := Fields(r);
    DropTrailingEmptyShape(f);
    var d := DropTrailingEmpty(f);
    assert f[0] == tag;
    assert |d| >= 1;
  }

  /** A string of colons has only empty pieces between them. */
  lemma {:induction false} FieldsOfColons(s: string)
    requires forall i :: 0 <= i < |s| ==> s[i] == ':'
    ensures forall k :: 0 <= k < |Fields(s)| ==> Fields(s)[k] == ""
    decreases |s|
  {
    if s != [] {
      FieldsOfColons(s[1..]);
      assert Fields(s) == [""] + Fields(s[1..]);
    }
  }

  function Split(s: string): (parts: seq<string>)
  {
    if NoColon(s) then [s] else DropTrailingEmpty(Fields(s))
  }

  /** What split(":") promises: colon-free pieces that, rejoined, give the input
      up to the trailing colons that were dropped; the last piece is non-empty
      unless the input had no colon at all. */
  lemma SplitShape(s: string)
    ensures forall i :: 0 <= i < |Split(s)| ==> NoColon(Split(s)[i])
    ensures NoColon(s) ==> Split(s) == [s]
    ensures !NoColon(s) ==> Split(s) == [] || Split(s)[|Split(s)| - 1] != ""
    ensures Join(Split(s)) <= s
    ensures forall i :: |Join(Split(s))| <= i < |s| ==> s[i] == ':'
  {
    if !NoColon(s) {
      var f := Fields(s);
      var r := DropTrailingEmpty(f);
      FieldsShape(s);
      DropTrailingEmptyShape(f);
      JoinDroppedEmpty(f, |r|);
      forall i | 0 <= i < |r| ensures NoColon(r[i]) {
        assert r[i] == f[i];
      }
    }
  }

  /** Rejoining a prefix that only leaves out empty pieces loses nothing but colons. */
  lemma {:induction false} JoinDroppedEmpty(f: seq<string>, n: nat)
    requires n <= |f| && |f| >= 1
    requires forall i :: n <= i < |f| ==> f[i] == ""
    ensures Join(f[..n]) <= Join(f)
    ensures forall i :: |Join(f[..n])| <= i < |Join(f)| ==> Join(f)[i] == ':'
    decreases |f|
  {
    if n == |f| {
      assert f[..n] == f;
    } else if |f| == 1 {
      assert f[..n] == [];
    } else {
      // f = [f[0]] + f[1..]
      var t := f[1..];
      if n == 0 {
        JoinDroppedEmpty(t, 0);
        assert t[..0] == [];
        assert f[..0] == [];
        assert Join(f) == f[0] + ":" + Join(t);
      } else {
        JoinDroppedEmpty(t, n - 1);
        assert t[..n - 1] == f[1..n];
        if n == 1 {
          assert f[..1] == [f[0]];
          assert Join(f) == f[0] + ":" + Join(t);
          assert t[..0] == [];
        } else {
          assert f[..n][1..] == f[1..n];
          assert Join(f[..n]) == f[0] + ":" + Join(f[1..n]);
          assert Join(f) == f[0] + ":" + Join(t);
        }
      }
    }
  }

  lemma {:induction false} FieldsOfColonFree(a: string)
    requires NoColon(a)
    ensures Fields(a) == [a]
    decreases |a|
  {
    if a != [] {
      FieldsOfColonFree(a[1..]);
      assert a == [a[0]] + a[1..];
    }
  }

  lemma {:induction false} FieldsCons(a: string, t: string)
    requires NoColon(a)
    ensures Fields(a + ":" + t) == [a] + Fields(t)
    decreases |a|
  {
    var s := a + ":" + t;
    if a == [] {
      assert s[1..] == t;
    } else {
      FieldsCons(a[1..], t);
      assert s[1..] == a[1..] + ":" + t;
      assert a == [a[0]] + a[1..];
    }
  }

  lemma {:induction false} FieldsJoin(parts: seq<string>)
    requires |parts| >= 1
    requires forall i :: 0 <= i < |parts| ==> NoColon(parts[i])
    ensures Fields(Join(parts)) == parts
    decreases |parts|
  {
    if |parts| == 1 {
      FieldsOfColonFree(parts[0]);
    } else {
      FieldsJoin(parts[1..]);
      FieldsCons(parts[0], Join(parts[1..]));
      assert parts == [parts[0]] + parts[1..];
    }
  }

  /** The round trip the wire format rests on: colon-free fields, joined with
      colons, split back into the same fields, provided the last one is not
      empty (split drops trailing empties) or there is only one. */
  lemma SplitJoin(parts: seq<string>)
    requires |parts| >= 1
    requires forall i :: 0 <= i < |parts| ==> NoColon(parts[i])
    requires |parts| == 1 || parts[|parts| - 1] != ""
    ensures Split(Join(parts)) == parts
  {
    if |parts| == 1 {
    } else {
      FieldsJoin(parts);
      var s := Join(parts);
      assert s == parts[0] + ":" + Join(parts[1..]);
      assert s[|parts[0]|] == ':';
    }
  }

  /** split(":") of nothing but colons is empty: there is no parts[0]. */
  lemma SplitColonsOnly(s: string)
    requires s != [] && forall i :: 0 <= i < |s| ==> s[i] == ':'
    ensures Split(s) == []
  {
    assert s[0] == ':';
    FieldsOfColons(s);
    DropTrailingEmptyShape(Fields(s));
  }

  // ---------------------------------------------------------------------------
  // String.indexOf(char) and String.replace(char, char)

  function IndexOfChar(s: string, c: char): (r: int)
    ensures -1 <= r < |s|
  {
    if s == [] then -1
    else if s[0] == c then 0
    else
      var k := IndexOfChar(s[1..], c);
      if k == -1 then -1 else k + 1
  }

  /** indexOf answers -1 exactly when `c` is absent, and otherwise the first
      position holding `c`. */
  lemma {:induction false} IndexOfCharSpec(s: string, c: char)
    ensures var r := IndexOfChar(s, c);
      && (r == -1 <==> forall i :: 0 <= i < |s| ==> s[i] != c)
      && (r != -1 ==> s[r] == c && forall i :: 0 <= i < r ==> s[i] != c)
  {
    if s != [] && s[0] != c {
      IndexOfCharSpec(s[1..], c);
      var k := IndexOfChar(s[1..], c);
      if k == -1 {
        forall i | 0 <= i < |s| ensures s[i] != c {
          if i > 0 {
            assert s[i] == s[1..][i - 1];
          }
        }
      } else {
        assert s[1..][k] == c;
      }
    }
  }

  function ReplaceChar(s: string, from: char, to: char): (r: string)
    ensures |r| == |s|
  {
    if s == [] then []
    else [if s[0] == from then to else s[0]] + ReplaceChar(s[1..], from, to)
  }

  /** replace changes every occurrence of `from` into `to` and nothing else. */
  lemma {:induction false} ReplaceCharSpec(s: string, from: char, to: char)
    ensures forall i :: 0 <= i < |s| ==>
      ReplaceChar(s, from, to)[i] == if s[i] == from then to else s[i]
  {
    if s != [] {
      ReplaceCharSpec(s[1..], from, to);
      var r := ReplaceChar(s, from, to);
      forall i | 0 < i < |s| ensures r[i] == if s[i] == from then to else s[i] {
        assert r[i] == ReplaceChar(s[1..], from, to)[i - 1];
        assert s[i] == s[1..][i - 1];
      }
    }
  }

  // ---------------------------------------------------------------------------
  // Decimal text of an int ("" + i in Java) and Integer.parseInt.

  predicate IsDigit(c: char) { '0' <= c <= '9' }

  predicate AllDigits(s: string) { forall i :: 0 <= i < |s| ==> IsDigit(s[i]) }

  function DigitChar(d: nat): (c: char)
    requires d < 10
    ensures IsDigit(c) && c as int - '0' as int == d
  {
    ('0' as int + d) as char
  }

  function NatText(n: nat): (s: string)
    ensures s != [] && AllDigits(s)
    decreases n
  {
    if n < 10 then [DigitChar(n)] else NatText(n / 10) + [DigitChar(n % 10)]
  }

  function IntText(i: int): (s: string)
    ensures s != [] && NoColon(s) && !IsTrimmable(s[|s| - 1])
  {
    if i < 0 then "-" + NatText(-i) else NatText(i)
  }

  function DigitsValue(s: string): nat
    requires AllDigits(s)
  {
    if s == [] then 0 else DigitsValue(s[..|s| - 1]) * 10 + (s[|s| - 1] as int - '0' as int)
  }

  /** Integer.parseInt: an optional '+' or '-', then at least one ASCII digit,
      and the value must fit in 32 bits; anything else throws, which is None here. */
  function ParseInt(s: string): (r: Option<int>)
    ensures r.Some? ==> MinInt <= r.value <= MaxInt
  {
    if s == [] then None
    else
      var signed := s[0] == '-' || s[0] == '+';
      var digits := if signed then s[1..] else s;
      if digits == [] || !AllDigits(digits) then None
      else
        var d: int := DigitsValue(digits);
        var v := if s[0] == '-' then -d else d;
        if MinInt <= v <= MaxInt then Some(v) else None
  }

  lemma {:induction false} NatTextValue(n: nat)
    ensures DigitsValue(NatText(n)) == n
    decreases n
  {
    if n >= 10 {
      NatTextValue(n / 10);
      var s := NatText(n);
      assert s[..|s| - 1] == NatText(n / 10);
    }
  }

  /** parseInt reads back exactly the int that "" + i printed. */
  lemma ParseIntText(i: int)
    requires MinInt <= i <= MaxInt
    ensures ParseInt(IntText(i)) == Some(i)
  {
    var s := IntText(i);
    if i < 0 {
      var d := NatText(-i);
      NatTextValue(-i);
      assert s == "-" + d;
      assert s[0] == '-' && s[1..] == d;
    } else {
      var d := NatText(i);
      NatTextValue(i);
      assert s == d && IsDigit(s[0]);
    }
  }

  /** Distinct ints print differently. */
  lemma IntTextInjective(i: int, j: int)
    requires IntText(i) == IntText(j)
    ensures i == j
  {
    assert IntText(i)[0] == '-' <==> i < 0;
    assert IntText(j)[0] == '-' <==> j < 0;
    if i < 0 && j < 0 {
      assert NatText(-i) == IntText(i)[1..] == NatText(-j);
      NatTextValue(-i);
      NatTextValue(-j);
    } else if i >= 0 && j >= 0 {
      NatTextValue(i);
      NatTextValue(j);
    }
  }
}
