/** The string operations the Go and TypeScript sources take from their
    standard libraries. */
module Strings {

  /** strings.Split / String.split for a one-character separator. */
  function Split(s: string, sep: char): (parts: seq<string>)
    ensures parts != []
  {
    if s == "" then [""]
    else
      var rest := Split(s[1..], sep);
      if s[0] == sep then [""] + rest else [[s[0]] + rest[0]] + rest[1..]
  }

  /** strings.Join / Array.join. */
  function Join(parts: seq<string>, sep: string): string {
    if parts == [] then ""
    else if |parts| == 1 then parts[0]
    else parts[0] + sep + Join(parts[1..], sep)
  }

  function TrimLeft(space: char -> bool, s: string): string {
    if s != "" && space(s[0]) then TrimLeft(space, s[1..]) else s
  }

  function TrimRight(space: char -> bool, s: string): string {
    if s != "" && space(s[|s| - 1]) then TrimRight(space, s[..|s| - 1]) else s
  }

  function Trim(space: char -> bool, s: string): string {
    TrimRight(space, TrimLeft(space, s))
  }

  predicate HasPrefix(s: string, prefix: string) {
    prefix <= s
  }

  /** ASCII lower-casing; every string compared in the sources is ASCII. */
  function Lower(s: string): (r: string)
    ensures |r| == |s|
  {
    if s == "" then ""
    else [if 'A' <= s[0] <= 'Z' then s[0] - 'A' + 'a' else s[0]] + Lower(s[1..])
  }

  lemma {:induction false} LowerKeeps(s: string)
    requires forall i :: 0 <= i < |s| ==> !('A' <= s[i] <= 'Z')
    ensures Lower(s) == s
  {
    if s != "" {
      LowerKeeps(s[1..]);
    }
  }

  /** unicode.IsSpace, the white space of Go's strings.TrimSpace. */
  predicate GoSpace(c: char) {
    || '\t' <= c <= '\r' || c == ' ' || c == '\U{85}' || c == '\U{A0}' || c == '\U{1680}'
    || '\U{2000}' <= c <= '\U{200A}' || c == '\U{2028}' || c == '\U{2029}'
    || c == '\U{202F}' || c == '\U{205F}' || c == '\U{3000}'
  }

  /** The white space of String.prototype.trim. */
  predicate JsSpace(c: char) {
    c != '\U{85}' && (GoSpace(c) || c == '\U{FEFF}')
  }

  // ---------------------------------------------------------------------

  predicate Trimmed(space: char -> bool, s: string) {
    s == "" || (!space(s[0]) && !space(s[|s| - 1]))
  }

  lemma {:induction false} TrimLeftKeeps(space: char -> bool, s: string)
    ensures var r := TrimLeft(space, s);
      && |r| <= |s| && r == s[|s| - |r|..]
      && (r == "" || !space(r[0]))
  {
    if s != "" && space(s[0]) {
      TrimLeftKeeps(space, s[1..]);
    }
  }

  lemma {:induction false} TrimRightKeeps(space: char -> bool, s: string)
    ensures var r := TrimRight(space, s);
      && |r| <= |s| && r == s[..|r|]
      && (r == "" || !space(r[|r| - 1]))
  {
    if s != "" && space(s[|s| - 1]) {
      TrimRightKeeps(space, s[..|s| - 1]);
    }
  }

  /** Trimming yields a trimmed part of the string and changes nothing more. */
  lemma TrimKeeps(space: char -> bool, s: string)
    ensures Trimmed(space, Trim(space, s))
    ensures forall c :: c in Trim(space, s) ==> c in s
    ensures Trimmed(space, s) ==> Trim(space, s) == s
  {
    TrimLeftKeeps(space, s);
    TrimRightKeeps(space, TrimLeft(space, s));
  }

  lemma {:induction false} SplitParts(s: string, sep: char)
    ensures forall i :: 0 <= i < |Split(s, sep)| ==> sep !in Split(s, sep)[i]
    ensures forall i, c :: 0 <= i < |Split(s, sep)| && c in Split(s, sep)[i] ==> c in s
  {
    if s != "" {
      SplitParts(s[1..], sep);
      var rest := Split(s[1..], sep);
      forall i | 0 <= i < |Split(s, sep)|
        ensures sep !in Split(s, sep)[i]
        ensures forall c :: c in Split(s, sep)[i] ==> c in s
      {
        if s[0] == sep {
          assert Split(s, sep)[i] == if i == 0 then "" else rest[i - 1];
        } else {
          assert Split(s, sep)[i] == if i == 0 then [s[0]] + rest[0] else rest[i];
        }
        forall c | c in Split(s, sep)[i] ensures c in s {
          assert c == s[0] || c in s[1..];
        }
      }
    }
  }

  lemma {:induction false} SplitOne(s: string, sep: char)
    requires sep !in s
    ensures Split(s, sep) == [s]
  {
    if s != "" {
      SplitOne(s[1..], sep);
      assert [s[0]] + s[1..] == s;
    }
  }

  lemma {:induction false} SplitCons(a: string, b: string, sep: char)
    requires sep !in a
    ensures Split(a + [sep] + b, sep) == [a] + Split(b, sep)
  {
    var s := a + [sep] + b;
    if a == "" {
      assert s[1..] == b;
    } else {
      SplitCons(a[1..], b, sep);
      assert s[1..] == a[1..] + [sep] + b;
      assert [a[0]] + a[1..] == a;
    }
  }

  /** Splitting undoes joining when no part holds the separator. */
  lemma {:induction false} SplitJoin(parts: seq<string>, sep: char)
    requires parts != [] && forall i :: 0 <= i < |parts| ==> sep !in parts[i]
    ensures Split(Join(parts, [sep]), sep) == parts
  {
    if |parts| == 1 {
      SplitOne(parts[0], sep);
    } else {
      var rest := Join(parts[1..], [sep]);
      SplitJoin(parts[1..], sep);
      SplitCons(parts[0], rest, sep);
      assert Join(parts, [sep]) == parts[0] + [sep] + rest;
      assert [parts[0]] + parts[1..] == parts;
    }
  }

  lemma {:induction false} JoinChars(parts: seq<string>, sep: string, c: char)
    requires c in Join(parts, sep)
    ensures c in sep || exists i :: 0 <= i < |parts| && c in parts[i]
  {
    if |parts| > 1 && c !in parts[0] && c !in sep {
      JoinChars(parts[1..], sep, c);
      var i :| 0 <= i < |parts[1..]| && c in parts[1..][i];
      assert c in parts[i + 1];
    }
  }

  lemma {:induction false} JoinEnds(parts: seq<string>, sep: string)
    requires parts != [] && parts[0] != "" && parts[|parts| - 1] != ""
    ensures var j := Join(parts, sep);
      j != "" && j[0] == parts[0][0] && j[|j| - 1] == parts[|parts| - 1][|parts[|parts| - 1]| - 1]
  {
    if |parts| > 1 {
      if |parts| > 2 && parts[1] == "" {
        LastOfJoin(parts[1..], sep);
      } else {
        JoinEnds(parts[1..], sep);
      }
    }
  }

  lemma {:induction false} LastOfJoin(parts: seq<string>, sep: string)
    requires parts != [] && parts[|parts| - 1] != ""
    ensures var j := Join(parts, sep);
      j != "" && j[|j| - 1] == parts[|parts| - 1][|parts[|parts| - 1]| - 1]
  {
    if |parts| > 1 {
      LastOfJoin(parts[1..], sep);
    }
  }
}
