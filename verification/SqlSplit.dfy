/** splitSQL of internal/db/migrate.go: how a migration file becomes the list of
    statements that are executed. */
module SqlSplit {
  import opened Strings

  const SEMICOLON := ';'
  const NEWLINE := '\n'

  predicate Kept(line: string) {
    !HasPrefix(line, "--") && line != ""
  }

  /** Trimmed lines that are neither blank nor comments. */
  function Clean(lines: seq<string>): seq<string> {
    if lines == [] then []
    else
      var line := Trim(GoSpace, lines[|lines| - 1]);
      Clean(lines[..|lines| - 1]) + if Kept(line) then [line] else []
  }

  function Statement(fragment: string): string {
    Trim(GoSpace, Join(Clean(Split(fragment, NEWLINE)), [NEWLINE]))
  }

  function Statements(fragments: seq<string>): seq<string> {
    if fragments == [] then []
    else
      var stmt := Statement(fragments[|fragments| - 1]);
      Statements(fragments[..|fragments| - 1]) + if stmt != "" then [stmt] else []
  }

  function SplitSql(sql: string): seq<string> {
    Statements(Split(sql, SEMICOLON))
  }

  method SplitSqlMethod(sql: string) returns (stmts: seq<string>)
    ensures stmts == SplitSql(sql)
  {
    stmts := [];
    var fragments := Split(sql, SEMICOLON);
    for i := 0 to |fragments|
      invariant stmts == Statements(fragments[..i])
    {
      assert fragments[..i + 1][..i] == fragments[..i];
      var stmt := StatementMethod(fragments[i]);
      if stmt != "" {
        stmts := stmts + [stmt];
      }
    }
    assert fragments[..|fragments|] == fragments;
  }

  /** The inner loop of splitSQL. */
  method StatementMethod(fragment: string) returns (stmt: string)
    ensures stmt == Statement(fragment)
  {
    var lines: seq<string> := [];
    var rawLines := Split(fragment, NEWLINE);
    for k := 0 to |rawLines|
      invariant lines == Clean(rawLines[..k])
    {
      assert rawLines[..k + 1][..k] == rawLines[..k];
      var line := Trim(GoSpace, rawLines[k]);
      if HasPrefix(line, "--") || line == "" {
        continue;
      }
      lines := lines + [line];
    }
    assert rawLines[..|rawLines|] == rawLines;
    stmt := Join(lines, [NEWLINE]);
    stmt := Trim(GoSpace, stmt);
  }

  // ---------------------------------------------------------------------
  // Normal form
  // ---------------------------------------------------------------------

  predicate NormalLine(line: string) {
    Trimmed(GoSpace, line) && Kept(line)
  }

  /** No semicolon, and only trimmed, non-blank, non-comment lines. */
  ghost predicate NormalStatement(stmt: string) {
    && SEMICOLON !in stmt
    && forall i :: 0 <= i < |Split(stmt, NEWLINE)| ==> NormalLine(Split(stmt, NEWLINE)[i])
  }

  ghost predicate NormalForm(stmts: seq<string>) {
    forall i :: 0 <= i < |stmts| ==> NormalStatement(stmts[i])
  }

  lemma {:induction false} CleanLines(lines: seq<string>)
    ensures forall i :: 0 <= i < |Clean(lines)| ==> NormalLine(Clean(lines)[i])
    ensures forall i, c :: 0 <= i < |Clean(lines)| && c in Clean(lines)[i]
              ==> exists k :: 0 <= k < |lines| && c in lines[k]
  {
    if lines != [] {
      var init, last := lines[..|lines| - 1], lines[|lines| - 1];
      CleanLines(init);
      TrimKeeps(GoSpace, last);
      forall i, c | 0 <= i < |Clean(lines)| && c in Clean(lines)[i]
        ensures exists k :: 0 <= k < |lines| && c in lines[k]
      {
        if i < |Clean(init)| {
          var k :| 0 <= k < |init| && c in init[k];
          assert c in lines[k];
        } else {
          assert c in last && last == lines[|lines| - 1];
        }
      }
    }
  }

  lemma {:induction false} CleanIsIdentity(lines: seq<string>)
    requires forall i :: 0 <= i < |lines| ==> NormalLine(lines[i])
    ensures Clean(lines) == lines
  {
    if lines != [] {
      var init, last := lines[..|lines| - 1], lines[|lines| - 1];
      CleanIsIdentity(init);
      assert NormalLine(last);
      assert Trim(GoSpace, last) == last by {
        TrimKeeps(GoSpace, last);
      }
      assert init + [last] == lines;
    }
  }

  lemma JoinOfNormalLines(lines: seq<string>)
    requires lines != [] && forall i :: 0 <= i < |lines| ==> NormalLine(lines[i])
    ensures Trim(GoSpace, Join(lines, [NEWLINE])) == Join(lines, [NEWLINE])
  {
    JoinEnds(lines, [NEWLINE]);
    assert NormalLine(lines[0]) && NormalLine(lines[|lines| - 1]);
    TrimKeeps(GoSpace, Join(lines, [NEWLINE]));
  }

  lemma StatementIsNormal(fragment: string)
    requires SEMICOLON !in fragment && Statement(fragment) != ""
    ensures NormalStatement(Statement(fragment))
  {
    var raw := Split(fragment, NEWLINE);
    var lines := Clean(raw);
    SplitParts(fragment, NEWLINE);
    CleanLines(raw);
    if lines == [] {
      TrimKeeps(GoSpace, "");
    } else {
      JoinOfNormalLines(lines);
      forall i | 0 <= i < |lines| ensures NEWLINE !in lines[i] && SEMICOLON !in lines[i] {
        assert forall k :: 0 <= k < |raw| ==> NEWLINE !in raw[k] && SEMICOLON !in raw[k];
      }
      SplitJoin(lines, NEWLINE);
      if SEMICOLON in Join(lines, [NEWLINE]) {
        JoinChars(lines, [NEWLINE], SEMICOLON);
      }
    }
  }

  lemma StatementOfNormal(stmt: string)
    requires NormalStatement(stmt)
    ensures Statement(stmt) == stmt && stmt != ""
  {
    var lines := Split(stmt, NEWLINE);
    assert NormalLine(lines[0]);
    CleanIsIdentity(lines);
    JoinOfNormalLines(lines);
    JoinSplit(stmt, NEWLINE);
  }

  lemma {:induction false} JoinSplit(s: string, sep: char)
    ensures Join(Split(s, sep), [sep]) == s
  {
    if s != "" {
      JoinSplit(s[1..], sep);
      var rest := Split(s[1..], sep);
      if s[0] != sep {
        assert [[s[0]] + rest[0]] + rest[1..] == Split(s, sep);
        assert ([[s[0]] + rest[0]] + rest[1..])[1..] == rest[1..];
      } else {
        assert ([""] + rest)[1..] == rest;
      }
    }
  }

  lemma {:induction false} StatementsAreNormal(fragments: seq<string>)
    requires forall i :: 0 <= i < |fragments| ==> SEMICOLON !in fragments[i]
    ensures NormalForm(Statements(fragments))
  {
    if fragments != [] {
      StatementsAreNormal(fragments[..|fragments| - 1]);
      var last := fragments[|fragments| - 1];
      if Statement(last) != "" {
        StatementIsNormal(last);
      }
    }
  }

  lemma {:induction false} OwnStatements(stmts: seq<string>)
    requires forall i :: 0 <= i < |stmts| ==> stmts[i] != "" && Statement(stmts[i]) == stmts[i]
    ensures Statements(stmts) == stmts
  {
    if stmts != [] {
      OwnStatements(stmts[..|stmts| - 1]);
      assert stmts[..|stmts| - 1] + [stmts[|stmts| - 1]] == stmts;
    }
  }

  lemma StatementsOfNormal(stmts: seq<string>)
    requires NormalForm(stmts)
    ensures Statements(stmts) == stmts
  {
    forall i | 0 <= i < |stmts| ensures stmts[i] != "" && Statement(stmts[i]) == stmts[i] {
      StatementOfNormal(stmts[i]);
    }
    OwnStatements(stmts);
  }

  /** Every file splits into a normal form. */
  lemma SplitIsNormal(sql: string)
    ensures NormalForm(SplitSql(sql))
  {
    SplitParts(sql, SEMICOLON);
    StatementsAreNormal(Split(sql, SEMICOLON));
  }

  /** The normal forms are exactly the lists that splitting reproduces. */
  lemma NormalIff(stmts: seq<string>)
    ensures NormalForm(stmts) <==> SplitSql(Join(stmts, [SEMICOLON])) == stmts
  {
    if NormalForm(stmts) {
      if stmts == [] {
        TrimKeeps(GoSpace, "");
        assert Split("", NEWLINE) == [""];
        assert Clean([""]) == [];
        assert Statement("") == "";
        assert Statements([""]) == [];
      } else {
        forall i | 0 <= i < |stmts| ensures SEMICOLON !in stmts[i] {
          assert NormalStatement(stmts[i]);
        }
        SplitJoin(stmts, SEMICOLON);
        StatementsOfNormal(stmts);
      }
    } else {
      SplitIsNormal(Join(stmts, [SEMICOLON]));
    }
  }

  /** Splitting undoes joining on everything that splitting produced. */
  lemma SplitTwice(sql: string)
    ensures SplitSql(Join(SplitSql(sql), [SEMICOLON])) == SplitSql(sql)
    ensures forall i :: 0 <= i < |SplitSql(sql)| ==> SplitSql(sql)[i] != ""
  {
    SplitIsNormal(sql);
    NormalIff(SplitSql(sql));
    forall i | 0 <= i < |SplitSql(sql)| ensures SplitSql(sql)[i] != "" {
      StatementOfNormal(SplitSql(sql)[i]);
    }
  }

  // ---------------------------------------------------------------------
  // Nothing is lost
  // ---------------------------------------------------------------------

  /** The text of a line: nothing for blank lines and comments. */
  function TextOf(line: string): seq<string> {
    var text := Trim(GoSpace, line);
    if text == "" || "--" <= text then [] else [text]
  }

  /** The text of a fragment, line by line. */
  function TextsOf(lines: seq<string>): seq<string> {
    if lines == [] then [] else TextsOf(lines[..|lines| - 1]) + TextOf(lines[|lines| - 1])
  }

  /** The fragments that hold any text, in order. */
  function WithText(fragments: seq<string>): seq<string> {
    if fragments == [] then []
    else
      var last := fragments[|fragments| - 1];
      WithText(fragments[..|fragments| - 1]) + if TextsOf(Split(last, '\n')) == [] then [] else [last]
  }

  lemma {:induction false} CleanIsText(lines: seq<string>)
    ensures Clean(lines) == TextsOf(lines)
  {
    if lines != [] {
      CleanIsText(lines[..|lines| - 1]);
    }
  }

  lemma StatementHasText(fragment: string)
    ensures Statement(fragment) == "" <==> TextsOf(Split(fragment, '\n')) == []
    ensures Statement(fragment) != "" ==> Split(Statement(fragment), '\n') == TextsOf(Split(fragment, '\n'))
  {
    var raw := Split(fragment, NEWLINE);
    var lines := Clean(raw);
    CleanIsText(raw);
    if lines == [] {
      TrimKeeps(GoSpace, "");
    } else {
      SplitParts(fragment, NEWLINE);
      CleanLines(raw);
      JoinOfNormalLines(lines);
      JoinEnds(lines, [NEWLINE]);
      forall i | 0 <= i < |lines| ensures NEWLINE !in lines[i] {
        assert forall k :: 0 <= k < |raw| ==> NEWLINE !in raw[k];
      }
      SplitJoin(lines, NEWLINE);
    }
  }

  /** The lines of the statement are the text of the fragment. */
  ghost predicate Holds(stmt: string, fragment: string) {
    Split(stmt, '\n') == TextsOf(Split(fragment, '\n'))
  }

  lemma {:induction false} StatementsHoldTexts(fragments: seq<string>)
    ensures |Statements(fragments)| == |WithText(fragments)|
    ensures forall i :: 0 <= i < |Statements(fragments)| ==> Holds(Statements(fragments)[i], WithText(fragments)[i])
  {
    if fragments != [] {
      var init, last := fragments[..|fragments| - 1], fragments[|fragments| - 1];
      var stmts, texts := Statements(init), WithText(init);
      StatementsHoldTexts(init);
      StatementHasText(last);
      forall i | 0 <= i < |Statements(fragments)| ensures Holds(Statements(fragments)[i], WithText(fragments)[i]) {
        assert i < |stmts| ==> Holds(stmts[i], texts[i]);
      }
    }
  }

  /** There is one statement for each fragment that holds text, in the order of
      the file, and its lines are that text: nothing that is neither blank nor a
      comment is lost, repeated, moved or joined to another statement. */
  lemma NothingIsLost(sql: string)
    ensures var stmts, fragments := SplitSql(sql), WithText(Split(sql, ';'));
      |stmts| == |fragments| && forall i :: 0 <= i < |stmts| ==> Holds(stmts[i], fragments[i])
  {
    StatementsHoldTexts(Split(sql, ';'));
  }
}
