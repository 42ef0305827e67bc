/**
 * The Python string and path built-ins the report script relies on:
 * `str.lstrip`, `str.rstrip`, `str.strip`, `str.split`, `str.join`,
 * `str.lower` (ASCII letters only) and `os.path.join` (POSIX, two arguments).
 */
module Text {

  /** The character set of `lstrip('/')` and `rstrip('/')`. */
  const Slash: set<char> := {'/'}

  /** The characters for which Python's `str.isspace` holds. */
  predicate IsSpace(c: char)
  {
    || '\t' <= c <= '\r' || '\U{1C}' <= c <= ' '
    || c == '\U{85}' || c == '\U{A0}' || c == '\U{1680}'
    || '\U{2000}' <= c <= '\U{200A}' || c == '\U{2028}' || c == '\U{2029}'
    || c == '\U{202F}' || c == '\U{205F}' || c == '\U{3000}'
  }

  /** The characters Python's argument-less `str.strip()` removes. */
  const Whitespace: set<char> := set c: char | IsSpace(c)

  /** `s.lstrip(chars)`: drops every leading character that is in `chars`. */
  function LStrip(s: string, chars: set<char>): (r: string)
    ensures |r| <= |s|
    ensures r == [] || r[0] !in chars
    ensures forall i :: 0 <= i < |s| - |r| ==> s[i] in chars
    decreases |s|
  {
    if |s| > 0 && s[0] in chars then LStrip(s[1..], chars) else s
  }

  /** What `lstrip` leaves is a suffix of its argument. */
  lemma {:induction false} LStripSuffix(s: string, chars: set<char>)
    ensures var r := LStrip(s, chars); r == s[|s| - |r|..]
    decreases |s|
  {
    if |s| > 0 && s[0] in chars {
      LStripSuffix(s[1..], chars);
      assert s[1..][|s| - 1 - |LStrip(s, chars)|..] == s[|s| - |LStrip(s, chars)|..];
    }
  }

  /** `s.rstrip(chars)`: drops every trailing character that is in `chars`. */
  function RStrip(s: string, chars: set<char>): (r: string)
    ensures |r| <= |s|
    ensures r == [] || r[|r| - 1] !in chars
    ensures forall i :: |r| <= i < |s| ==> s[i] in chars
    decreases |s|
  {
    if |s| > 0 && s[|s| - 1] in chars then RStrip(s[..|s| - 1], chars) else s
  }

  /** What `rstrip` leaves is a prefix of its argument. */
  lemma {:induction false} RStripPrefix(s: string, chars: set<char>)
    ensures var r := RStrip(s, chars); r == s[..|r|]
    decreases |s|
  {
    if |s| > 0 && s[|s| - 1] in chars {
      RStripPrefix(s[..|s| - 1], chars);
      assert s[..|s| - 1][..|RStrip(s, chars)|] == s[..|RStrip(s, chars)|];
    }
  }

  /** `s.strip(chars)`: both ends; empty exactly when every character of `s` is in `chars`. */
  function Strip(s: string, chars: set<char>): (r: string)
    ensures r == [] || (r[0] !in chars && r[|r| - 1] !in chars)
    ensures r == [] <==> forall i :: 0 <= i < |s| ==> s[i] in chars
  {
    LStripSuffix(s, chars);
    RStripPrefix(LStrip(s, chars), chars);
    RStrip(LStrip(s, chars), chars)
  }

  /** Stripping leaves a string alone when neither end is in `chars`. */
  lemma StripKeeps(s: string, chars: set<char>)
    requires s == [] || (s[0] !in chars && s[|s| - 1] !in chars)
    ensures Strip(s, chars) == s
  {
  }

  /** A leading character that is in `chars` is stripped away. */
  lemma StripDropsLeading(c: char, s: string, chars: set<char>)
    requires c in chars
    ensures Strip([c] + s, chars) == Strip(s, chars)
  {
    assert ([c] + s)[1..] == s;
  }

  /** `s.split(sep)` for a one-character separator: never empty; `SplitFields` shows no part holds `sep`. */
  function Split(s: string, sep: char): (parts: seq<string>)
    ensures |parts| >= 1
    decreases |s|
  {
    if |s| == 0 then [""]
    else
      var rest := Split(s[1..], sep);
      if s[0] == sep then [""] + rest
      else [[s[0]] + rest[0]] + rest[1..]
  }

  /** No part of `s.split(sep)` holds `sep`. */
  lemma {:induction false} SplitFields(s: string, sep: char)
    ensures forall p :: p in Split(s, sep) ==> sep !in p
    decreases |s|
  {
    if |s| > 0 {
      SplitFields(s[1..], sep);
      var rest := Split(s[1..], sep);
      if s[0] != sep {
        assert forall p :: p in [[s[0]] + rest[0]] + rest[1..] ==> p == [s[0]] + rest[0] || p in rest;
      }
    }
  }

  /** `sep.join(parts)`. */
  function Join(parts: seq<string>, sep: char): string
  {
    if |parts| == 0 then ""
    else if |parts| == 1 then parts[0]
    else parts[0] + [sep] + Join(parts[1..], sep)
  }

  /** The set of elements of a sequence (Python's `set(xs)`). */
  function ToSet(xs: seq<string>): (r: set<string>)
    ensures forall x :: x in r <==> x in xs
  {
    set x | x in xs
  }

  /** Splitting a string that starts with a separator-free part `a`. */
  lemma {:induction false} SplitPrefix(a: string, rest: string, sep: char)
    requires sep !in a
    ensures Split(a + rest, sep) == [a + Split(rest, sep)[0]] + Split(rest, sep)[1..]
    decreases |a|
  {
    if |a| == 0 {
      assert a + rest == rest;
      var r := Split(rest, sep);
      assert a + r[0] == r[0];
      assert r == [r[0]] + r[1..];
    } else {
      assert (a + rest)[0] == a[0] && (a + rest)[1..] == a[1..] + rest;
      SplitPrefix(a[1..], rest, sep);
      var r := Split(rest, sep);
      var r' := Split(a[1..] + rest, sep);
      assert r' == [a[1..] + r[0]] + r[1..];
      assert Split(a + rest, sep) == [[a[0]] + r'[0]] + r'[1..];
      assert [a[0]] + (a[1..] + r[0]) == a + r[0];
    }
  }

  /** Joining and then splitting gives back the parts when no part holds the separator. */
  lemma {:induction false} SplitJoin(parts: seq<string>, sep: char)
    requires |parts| >= 1
    requires forall p :: p in parts ==> sep !in p
    ensures Split(Join(parts, sep), sep) == parts
    decreases |parts|
  {
    if |parts| == 1 {
      SplitPrefix(parts[0], "", sep);
      assert parts[0] + "" == parts[0];
    } else {
      var tail := Join(parts[1..], sep);
      assert Join(parts, sep) == parts[0] + ([sep] + tail);
      SplitPrefix(parts[0], [sep] + tail, sep);
      assert ([sep] + tail)[0] == sep && ([sep] + tail)[1..] == tail;
      assert Split([sep] + tail, sep) == [""] + Split(tail, sep);
      SplitJoin(parts[1..], sep);
      assert parts[0] + "" == parts[0];
      assert parts == [parts[0]] + parts[1..];
    }
  }

  /** Splitting and then joining gives back the string. */
  lemma {:induction false} JoinSplit(s: string, sep: char)
    ensures Join(Split(s, sep), sep) == s
    decreases |s|
  {
    if |s| > 0 {
      var rest := Split(s[1..], sep);
      JoinSplit(s[1..], sep);
      if s[0] == sep {
        assert ([""] + rest)[1..] == rest;
        assert s == [s[0]] + s[1..];
      } else {
        var parts := [[s[0]] + rest[0]] + rest[1..];
        assert parts[1..] == rest[1..];
        if |rest| > 1 {
          assert rest == [rest[0]] + rest[1..];
        }
        assert s == [s[0]] + s[1..];
      }
    }
  }

  /** The first and last characters of a non-empty join. */
  lemma {:induction false} JoinEdges(parts: seq<string>, sep: char)
    requires |Join(parts, sep)| > 0
    ensures |parts| >= 1
    ensures var j := Join(parts, sep);
      j[0] == (if parts[0] != "" then parts[0][0] else sep)
    ensures var j := Join(parts, sep); var last := parts[|parts| - 1];
      j[|j| - 1] == (if last != "" then last[|last| - 1] else sep)
    decreases |parts|
  {
    if |parts| > 2 {
      assert Join(parts[1..], sep) == parts[1] + [sep] + Join(parts[2..], sep);
      JoinEdges(parts[1..], sep);
    }
  }

  /**
   * What `strip` keeps is one contiguous piece of its argument, and
   * everything it drops from either end is a stripped character.
   */
  lemma StripIsSlice(s: string, chars: set<char>)
    ensures exists i, j :: 0 <= i <= j <= |s| && Strip(s, chars) == s[i..j]
                           && (forall k :: 0 <= k < i ==> s[k] in chars)
                           && (forall k :: j <= k < |s| ==> s[k] in chars)
  {
    var l := LStrip(s, chars);
    LStripSuffix(s, chars);
    RStripPrefix(l, chars);
    var i, j := |s| - |l|, |s| - |l| + |RStrip(l, chars)|;
    assert l[..|RStrip(l, chars)|] == s[i..j];
    forall k | j <= k < |s|
      ensures s[k] in chars
    {
      assert s[k] == l[k - i];
    }
  }

  /**
   * Stripping characters that do not include the separator touches only the
   * first field: `s.lstrip(chars).split(sep)` is `s.split(sep)` with its
   * first part left-stripped.
   */
  lemma {:induction false} SplitLStrip(s: string, sep: char, chars: set<char>)
    requires sep !in chars
    ensures var parts := Split(s, sep);
      Split(LStrip(s, chars), sep) == [LStrip(parts[0], chars)] + parts[1..]
    decreases |s|
  {
    var parts := Split(s, sep);
    if |s| > 0 && s[0] in chars {
      var rest := Split(s[1..], sep);
      SplitLStrip(s[1..], sep, chars);
      assert parts == [[s[0]] + rest[0]] + rest[1..];
      assert ([s[0]] + rest[0])[1..] == rest[0];
      assert parts[1..] == rest[1..];
    } else {
      if |s| > 0 && s[0] != sep {
        assert parts[0] == [s[0]] + Split(s[1..], sep)[0];
      }
      assert parts == [parts[0]] + parts[1..];
    }
  }

  /** A separator at the end of a string opens one more, empty, part. */
  lemma {:induction false} SplitSnocSep(s: string, sep: char)
    ensures Split(s + [sep], sep) == Split(s, sep) + [""]
    decreases |s|
  {
    if |s| == 0 {
      assert s + [sep] == [sep] && [sep][1..] == [];
      assert Split(s, sep) == [""] && Split([sep][1..], sep) == [""];
    } else {
      assert (s + [sep])[0] == s[0] && (s + [sep])[1..] == s[1..] + [sep];
      var rest, rest' := Split(s[1..], sep), Split(s[1..] + [sep], sep);
      SplitSnocSep(s[1..], sep);
      assert rest'[0] == rest[0] && rest'[1..] == rest[1..] + [""];
      assert Split(s, sep) == if s[0] == sep then [""] + rest else [[s[0]] + rest[0]] + rest[1..];
      assert Split(s + [sep], sep) == if s[0] == sep then [""] + rest' else [[s[0]] + rest'[0]] + rest'[1..];
    }
  }

  /** Any other character at the end of a string extends its last part. */
  lemma {:induction false} SplitSnocChar(s: string, c: char, sep: char)
    requires c != sep
    ensures var parts := Split(s, sep);
      Split(s + [c], sep) == parts[..|parts| - 1] + [parts[|parts| - 1] + [c]]
    decreases |s|
  {
    if |s| == 0 {
      assert s + [c] == [c] && [c][1..] == [];
      assert Split(s, sep) == [""] && Split([c][1..], sep) == [""];
      assert [c] + "" == [c] && "" + [c] == [c];
    } else {
      assert (s + [c])[0] == s[0] && (s + [c])[1..] == s[1..] + [c];
      var rest, rest' := Split(s[1..], sep), Split(s[1..] + [c], sep);
      SplitSnocChar(s[1..], c, sep);
      assert Split(s, sep) == if s[0] == sep then [""] + rest else [[s[0]] + rest[0]] + rest[1..];
      assert Split(s + [c], sep) == if s[0] == sep then [""] + rest' else [[s[0]] + rest'[0]] + rest'[1..];
      ConsFieldsChar(s[0], rest, rest', c, sep);
    }
  }

  /** The step of `SplitSnocChar`, on the parts alone. */
  lemma ConsFieldsChar(x: char, rest: seq<string>, rest': seq<string>, c: char, sep: char)
    requires |rest| >= 1
    requires rest' == rest[..|rest| - 1] + [rest[|rest| - 1] + [c]]
    ensures var parts := if x == sep then [""] + rest else [[x] + rest[0]] + rest[1..];
      var parts' := if x == sep then [""] + rest' else [[x] + rest'[0]] + rest'[1..];
      parts' == parts[..|parts| - 1] + [parts[|parts| - 1] + [c]]
  {
    if x != sep {
      if |rest| == 1 {
        assert [x] + (rest[0] + [c]) == ([x] + rest[0]) + [c];
      } else {
        assert rest'[0] == rest[0] && rest'[1..] == rest[1..|rest| - 1] + [rest[|rest| - 1] + [c]];
      }
    }
  }

  /**
   * Stripping characters that do not include the separator touches only the
   * last field: `s.rstrip(chars).split(sep)` is `s.split(sep)` with its last
   * part right-stripped.
   */
  lemma {:induction false} SplitRStrip(s: string, sep: char, chars: set<char>)
    requires sep !in chars
    ensures var parts := Split(s, sep);
      Split(RStrip(s, chars), sep) == parts[..|parts| - 1] + [RStrip(parts[|parts| - 1], chars)]
    decreases |s|
  {
    var parts := Split(s, sep);
    if |s| == 0 {
      assert parts == [""];
    } else {
      var init, c := s[..|s| - 1], s[|s| - 1];
      assert s == init + [c];
      var before := Split(init, sep);
      var last := before[|before| - 1];
      if c == sep {
        SplitSnocSep(init, sep);
      } else {
        SplitSnocChar(init, c, sep);
      }
      if c in chars {
        SplitRStrip(init, sep, chars);
        assert parts == before[..|before| - 1] + [last + [c]];
        assert (last + [c])[..|last|] == last;
        assert RStrip(last + [c], chars) == RStrip(last, chars);
        assert parts[..|parts| - 1] == before[..|before| - 1];
      } else {
        assert parts == parts[..|parts| - 1] + [parts[|parts| - 1]];
        if c != sep {
          assert parts[|parts| - 1] == last + [c];
        }
      }
    }
  }

  /** ASCII-only `str.lower` on one character. */
  function LowerAscii(c: char): (r: char)
    ensures 'A' <= c <= 'Z' ==> 'a' <= r <= 'z' && r as int - c as int == 32
    ensures !('A' <= c <= 'Z') ==> r == c
  {
    if 'A' <= c <= 'Z' then (c as int + 32) as char else c
  }

  /**
   * POSIX `os.path.join(a, b)`: an absolute `b` replaces `a`; otherwise `b` is
   * appended to `a`, with a `/` between them unless `a` is empty or already ends in one.
   */
  function PathJoin(a: string, b: string): string
  {
    if |b| > 0 && b[0] == '/' then b
    else if a == "" || a[|a| - 1] == '/' then a + b
    else a + "/" + b
  }

  /** What `PathJoin` keeps of its arguments, and where it puts the separator. */
  lemma PathJoinShape(a: string, b: string)
    ensures var r := PathJoin(a, b);
      && |b| <= |r| && r[|r| - |b|..] == b
      && (|b| > 0 && b[0] == '/' ==> r == b)
      && (!(|b| > 0 && b[0] == '/') ==> |a| <= |r| && r[..|a|] == a)
      && (!(|b| > 0 && b[0] == '/') && a != "" && a[|a| - 1] != '/' ==> |r| == |a| + 1 + |b| && r[|a|] == '/')
  {
  }
}
