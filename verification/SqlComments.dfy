/** What splitSQL of internal/db/migrate.go does to comments. It cuts at every
    semicolon first and drops comment lines of the pieces afterwards, so a
    semicolon inside a comment line is not part of the comment. */
module SqlComments {
  import opened Strings
  import opened SqlSplit

  predicate IsComment(line: string) {
    HasPrefix(Trim(GoSpace, line), "--")
  }

  /** The lines of a file that are no comments. */
  function WithoutComments(lines: seq<string>): seq<string> {
    if lines == [] then []
    else (if IsComment(lines[0]) then [] else [lines[0]]) + WithoutComments(lines[1..])
  }

  /** The file with its comment lines taken out. */
  function Uncommented(sql: string): string {
    Join(WithoutComments(Split(sql, NEWLINE)), [NEWLINE])
  }

  // ---------------------------------------------------------------------
  // The condition on the file
  // ---------------------------------------------------------------------

  /** The piece holds text of a statement. */
  predicate HasText(piece: string) {
    Trim(GoSpace, piece) != "" && !("--" <= Trim(GoSpace, piece))
  }

  /** The statement that is open at the start of `lines` goes on in them: outside
      comment lines there is text before the next semicolon. */
  predicate GoesOn(lines: seq<string>) {
    && lines != []
    && if IsComment(lines[0]) then GoesOn(lines[1..])
       else
         var pieces := Split(lines[0], SEMICOLON);
         HasText(pieces[0]) || (|pieces| == 1 && GoesOn(lines[1..]))
  }

  /** One pass over the lines; `begun` says that a statement is open. In every
      comment line, no text follows a semicolon, and no semicolon stands between
      the beginning of a statement and its continuation. */
  predicate Harmless(lines: seq<string>, begun: bool) {
    if lines == [] then true
    else
      var pieces := Split(lines[0], SEMICOLON);
      var last := HasText(pieces[|pieces| - 1]);
      if !IsComment(lines[0]) then Harmless(lines[1..], if |pieces| == 1 then begun || last else last)
      else if |pieces| == 1 then Harmless(lines[1..], begun)
      else
        && (forall i :: 1 <= i < |pieces| ==> !HasText(pieces[i]))
        && !(begun && GoesOn(lines[1..]))
        && Harmless(lines[1..], false)
  }

  // ---------------------------------------------------------------------
  // Cutting at semicolons and at line ends, in either order
  // ---------------------------------------------------------------------

  function SplitEach(parts: seq<string>, sep: char): (r: seq<seq<string>>)
    ensures |r| == |parts| && forall i :: 0 <= i < |r| ==> r[i] == Split(parts[i], sep)
  {
    seq(|parts|, i requires 0 <= i < |parts| => Split(parts[i], sep))
  }

  /** The pieces of one line above the fragments `rest`: every piece but the last
      is a fragment of its own, the last one continues into the first of `rest`. */
  function Above(pieces: seq<string>, rest: seq<seq<string>>): (r: seq<seq<string>>)
    requires pieces != [] && rest != []
    ensures r != []
  {
    if |pieces| == 1 then [[pieces[0]] + rest[0]] + rest[1..] else [[pieces[0]]] + Above(pieces[1..], rest)
  }

  /** From the pieces of each line to the lines of each fragment. */
  function Regroup(lines: seq<seq<string>>): (r: seq<seq<string>>)
    requires Cut(lines)
    ensures r != []
  {
    if lines == [] then [[]] else Above(lines[0], Regroup(lines[1..]))
  }

  predicate Cut(lines: seq<seq<string>>) {
    forall i :: 0 <= i < |lines| ==> lines[i] != []
  }

  lemma NewLine(lines: seq<seq<string>>)
    requires Cut(lines)
    ensures Cut([[""]] + lines)
    ensures Regroup([[""]] + lines) == [[""] + Regroup(lines)[0]] + Regroup(lines)[1..]
  {
    assert ([[""]] + lines)[1..] == lines;
  }

  lemma NewPiece(lines: seq<seq<string>>)
    requires lines != [] && Cut(lines)
    ensures Cut([[""] + lines[0]] + lines[1..])
    ensures Regroup([[""] + lines[0]] + lines[1..]) == [[""]] + Regroup(lines)
  {
    assert ([[""] + lines[0]] + lines[1..])[1..] == lines[1..];
    assert ([""] + lines[0])[1..] == lines[0];
  }

  function AddFirst(c: char, parts: seq<string>): seq<string>
    requires parts != []
  {
    [[c] + parts[0]] + parts[1..]
  }

  lemma LongerPiece(lines: seq<seq<string>>, c: char)
    requires lines != [] && Cut(lines)
    ensures Cut([AddFirst(c, lines[0])] + lines[1..])
    ensures var r := Regroup(lines);
      r[0] != [] && Regroup([AddFirst(c, lines[0])] + lines[1..]) == [AddFirst(c, r[0])] + r[1..]
  {
    assert ([AddFirst(c, lines[0])] + lines[1..])[1..] == lines[1..];
    var ps, rest := lines[0], Regroup(lines[1..]);
    assert AddFirst(c, ps)[1..] == ps[1..];
    var r := Regroup(lines);
    if |ps| == 1 {
      assert AddFirst(c, [ps[0]] + rest[0]) == [[c] + ps[0]] + rest[0];
      assert r[1..] == rest[1..];
    } else {
      assert AddFirst(c, [ps[0]]) == [[c] + ps[0]];
      assert r[1..] == Above(ps[1..], rest);
    }
  }

  lemma AddChar(rest: string, c: char, sep: char)
    requires c != sep
    ensures Split([c] + rest, sep) == AddFirst(c, Split(rest, sep))
  {
    assert ([c] + rest)[1..] == rest;
  }

  lemma EachOfFirst(first: string, parts: seq<string>, sep: char)
    requires parts != []
    ensures SplitEach([first] + parts[1..], sep) == [Split(first, sep)] + SplitEach(parts, sep)[1..]
  {
  }

  /** Cutting an extended text twice, when the new character is no separator. */
  lemma AddCharTwice(rest: string, c: char, sep: char, sep': char)
    requires c != sep && c != sep'
    ensures var r := SplitEach(Split(rest, sep), sep');
      SplitEach(Split([c] + rest, sep), sep') == [AddFirst(c, r[0])] + r[1..]
  {
    AddChar(rest, c, sep);
    AddChar(Split(rest, sep)[0], c, sep');
    EachOfFirst([c] + Split(rest, sep)[0], Split(rest, sep), sep');
  }

  /** Cutting at semicolons and then at line ends gives what regrouping gives
      after cutting at line ends and then at semicolons. */
  ghost predicate Commutes(sql: string) {
    SplitEach(Split(sql, SEMICOLON), NEWLINE) == Regroup(SplitEach(Split(sql, NEWLINE), SEMICOLON))
  }

  lemma CommutesAtLineEnd(rest: string)
    requires Commutes(rest)
    ensures Commutes([NEWLINE] + rest)
  {
    var frags, lines := SplitEach(Split(rest, SEMICOLON), NEWLINE), SplitEach(Split(rest, NEWLINE), SEMICOLON);
    NewLine(lines);
    BreakFirst(rest, SEMICOLON, NEWLINE);
    BreakOuter(rest, NEWLINE, SEMICOLON);
  }

  lemma CommutesAtSemicolon(rest: string)
    requires Commutes(rest)
    ensures Commutes([SEMICOLON] + rest)
  {
    var frags, lines := SplitEach(Split(rest, SEMICOLON), NEWLINE), SplitEach(Split(rest, NEWLINE), SEMICOLON);
    NewPiece(lines);
    BreakFirst(rest, NEWLINE, SEMICOLON);
    BreakOuter(rest, SEMICOLON, NEWLINE);
  }

  lemma CommutesElsewhere(c: char, rest: string)
    requires Commutes(rest) && c != NEWLINE && c != SEMICOLON
    ensures Commutes([c] + rest)
  {
    LongerPiece(SplitEach(Split(rest, NEWLINE), SEMICOLON), c);
    AddCharTwice(rest, c, NEWLINE, SEMICOLON);
    AddCharTwice(rest, c, SEMICOLON, NEWLINE);
  }

  lemma {:induction false} CutsCommute(sql: string)
    ensures Commutes(sql)
  {
    if sql == "" {
      assert SplitEach([""], SEMICOLON) == [[""]] && SplitEach([""], NEWLINE) == [[""]];
      var empty: seq<seq<string>> := [[]];
      assert [""] + empty[0] == [""] && [[""]][1..] == [];
    } else {
      var c, rest := sql[0], sql[1..];
      CutsCommute(rest);
      assert sql == [c] + rest;
      if c == NEWLINE {
        CommutesAtLineEnd(rest);
      } else if c == SEMICOLON {
        CommutesAtSemicolon(rest);
      } else {
        CommutesElsewhere(c, rest);
      }
    }
  }

  /** Cutting twice, when the new character is the first separator. */
  lemma BreakOuter(rest: string, sep: char, sep': char)
    ensures SplitEach(Split([sep] + rest, sep), sep') == [[""]] + SplitEach(Split(rest, sep), sep')
  {
    assert ([sep] + rest)[1..] == rest;
  }

  /** Cutting twice, when the new character is the second separator. */
  lemma BreakFirst(rest: string, sep: char, sep': char)
    requires sep != sep'
    ensures var r := SplitEach(Split(rest, sep), sep');
      SplitEach(Split([sep'] + rest, sep), sep') == [[""] + r[0]] + r[1..]
  {
    AddChar(rest, sep', sep);
    var parts := Split(rest, sep);
    assert ([sep'] + parts[0])[1..] == parts[0];
    assert Split([sep'] + parts[0], sep') == [""] + Split(parts[0], sep');
    EachOfFirst([sep'] + parts[0], parts, sep');
  }

  // ---------------------------------------------------------------------
  // The statements as blocks of lines
  // ---------------------------------------------------------------------

  /** A list of lines, unless it is empty. */
  function Block(lines: seq<string>): seq<seq<string>> {
    if lines == [] then [] else [lines]
  }

  /** The kept lines of each fragment that has any. */
  function Blocks(frags: seq<seq<string>>): seq<seq<string>> {
    if frags == [] then [] else Blocks(frags[..|frags| - 1]) + Block(Clean(frags[|frags| - 1]))
  }

  function Texts(blocks: seq<seq<string>>): (r: seq<string>)
    ensures |r| == |blocks| && forall i :: 0 <= i < |r| ==> r[i] == Join(blocks[i], [NEWLINE])
  {
    seq(|blocks|, i requires 0 <= i < |blocks| => Join(blocks[i], [NEWLINE]))
  }

  lemma StatementText(fragment: string)
    ensures var lines := Clean(Split(fragment, NEWLINE));
      && Statement(fragment) == Join(lines, [NEWLINE])
      && (Statement(fragment) == "" <==> lines == [])
  {
    var lines := Clean(Split(fragment, NEWLINE));
    CleanLines(Split(fragment, NEWLINE));
    TrimKeeps(GoSpace, "");
    if lines != [] {
      JoinOfNormalLines(lines);
      JoinEnds(lines, [NEWLINE]);
    }
  }

  lemma TextsConcat(a: seq<seq<string>>, b: seq<seq<string>>)
    ensures Texts(a + b) == Texts(a) + Texts(b)
  {
  }

  lemma {:induction false} StatementsAreTexts(fragments: seq<string>)
    ensures Statements(fragments) == Texts(Blocks(SplitEach(fragments, NEWLINE)))
  {
    if fragments != [] {
      var init, last := fragments[..|fragments| - 1], fragments[|fragments| - 1];
      StatementsAreTexts(init);
      StatementText(last);
      var frags, lines := SplitEach(fragments, NEWLINE), Clean(Split(last, NEWLINE));
      assert frags[..|frags| - 1] == SplitEach(init, NEWLINE);
      TextsConcat(Blocks(SplitEach(init, NEWLINE)), Block(lines));
      assert Texts(Block(lines)) == if lines == [] then [] else [Statement(last)];
    }
  }

  /** Blocks are normal lines without line ends, and their texts determine them. */
  ghost predicate Proper(blocks: seq<seq<string>>) {
    forall i, j :: 0 <= i < |blocks| && 0 <= j < |blocks[i]| ==> NEWLINE !in blocks[i][j]
  }

  lemma {:induction false} BlocksAreProper(fragments: seq<string>)
    ensures Proper(Blocks(SplitEach(fragments, NEWLINE)))
    ensures forall i :: 0 <= i < |Blocks(SplitEach(fragments, NEWLINE))| ==>
              Blocks(SplitEach(fragments, NEWLINE))[i] != []
  {
    if fragments != [] {
      var init, last := fragments[..|fragments| - 1], fragments[|fragments| - 1];
      BlocksAreProper(init);
      var frags := SplitEach(fragments, NEWLINE);
      assert frags[..|frags| - 1] == SplitEach(init, NEWLINE);
      SplitParts(last, NEWLINE);
      CleanLines(Split(last, NEWLINE));
    }
  }

  lemma TextsDetermine(a: seq<seq<string>>, b: seq<seq<string>>)
    requires Proper(a) && Proper(b) && Texts(a) == Texts(b)
    requires (forall i :: 0 <= i < |a| ==> a[i] != []) && (forall i :: 0 <= i < |b| ==> b[i] != [])
    ensures a == b
  {
    assert |a| == |Texts(a)| == |b|;
    forall i | 0 <= i < |a| ensures a[i] == b[i] {
      assert Texts(a)[i] == Texts(b)[i];
      SplitJoin(a[i], NEWLINE);
      SplitJoin(b[i], NEWLINE);
    }
  }

  // ---------------------------------------------------------------------
  // The same blocks, line by line
  // ---------------------------------------------------------------------

  function Line(piece: string): seq<string> {
    if HasText(piece) then [Trim(GoSpace, piece)] else []
  }

  /** The blocks of `lines` when the lines `begun` are open before them. */
  function Flow(lines: seq<string>, begun: seq<string>): seq<seq<string>>
    decreases |lines|, 0
  {
    if lines == [] then Block(begun) else FlowLine(Split(lines[0], SEMICOLON), lines[1..], begun)
  }

  function FlowLine(pieces: seq<string>, lines: seq<string>, begun: seq<string>): seq<seq<string>>
    requires pieces != []
    decreases |lines|, |pieces|
  {
    if |pieces| == 1 then Flow(lines, begun + Line(pieces[0]))
    else Block(begun + Line(pieces[0])) + FlowLine(pieces[1..], lines, [])
  }

  lemma {:induction false} CleanConcat(a: seq<string>, b: seq<string>)
    ensures Clean(a + b) == Clean(a) + Clean(b)
    decreases |b|
  {
    if b == [] {
      assert a + b == a;
    } else {
      CleanConcat(a, b[..|b| - 1]);
      assert (a + b)[..|a + b| - 1] == a + b[..|b| - 1];
    }
  }

  lemma CleanOne(piece: string)
    ensures Clean([piece]) == Line(piece)
  {
    assert [piece][..0] == [];
  }

  lemma Assoc<T>(a: seq<T>, b: seq<T>, c: seq<T>)
    ensures (a + b) + c == a + (b + c)
  {
  }

  lemma {:induction false} BlocksConcat(a: seq<seq<string>>, b: seq<seq<string>>)
    ensures Blocks(a + b) == Blocks(a) + Blocks(b)
    decreases |b|
  {
    if b == [] {
      assert a + b == a;
    } else {
      var init, last := b[..|b| - 1], b[|b| - 1];
      BlocksConcat(a, init);
      assert (a + b)[..|a + b| - 1] == a + init && (a + b)[|a + b| - 1] == last;
      Assoc(Blocks(a), Blocks(init), Block(Clean(last)));
    }
  }

  lemma BlocksOne(frag: seq<string>)
    ensures Blocks([frag]) == Block(Clean(frag))
  {
    assert [frag][..0] == [];
  }

  lemma BlocksCons(frag: seq<string>, frags: seq<seq<string>>)
    ensures Blocks([frag] + frags) == Block(Clean(frag)) + Blocks(frags)
  {
    BlocksConcat([frag], frags);
    BlocksOne(frag);
  }

  /** The blocks when the lines `begun` are put before the first fragment. */
  function Joined(begun: seq<string>, frags: seq<seq<string>>): seq<seq<string>>
    requires frags != []
  {
    Block(begun + Clean(frags[0])) + Blocks(frags[1..])
  }

  lemma WholeBlocks(frags: seq<seq<string>>)
    requires frags != []
    ensures Joined([], frags) == Blocks(frags)
  {
    assert [] + Clean(frags[0]) == Clean(frags[0]);
    assert frags == [frags[0]] + frags[1..];
    BlocksCons(frags[0], frags[1..]);
  }

  lemma {:induction false} FlowIsBlocks(lines: seq<string>, begun: seq<string>)
    ensures Flow(lines, begun) == Joined(begun, Regroup(SplitEach(lines, SEMICOLON)))
    decreases |lines|, 0
  {
    if lines == [] {
      assert begun + [] == begun;
    } else {
      assert SplitEach(lines, SEMICOLON)[1..] == SplitEach(lines[1..], SEMICOLON);
      FlowLineIsBlocks(Split(lines[0], SEMICOLON), lines[1..], begun);
    }
  }

  lemma {:induction false} FlowLineIsBlocks(pieces: seq<string>, lines: seq<string>, begun: seq<string>)
    requires pieces != []
    ensures FlowLine(pieces, lines, begun) == Joined(begun, Above(pieces, Regroup(SplitEach(lines, SEMICOLON))))
    decreases |lines|, |pieces|
  {
    var rest := Regroup(SplitEach(lines, SEMICOLON));
    CleanOne(pieces[0]);
    if |pieces| == 1 {
      FlowIsBlocks(lines, begun + Line(pieces[0]));
      CleanConcat([pieces[0]], rest[0]);
      assert begun + (Line(pieces[0]) + Clean(rest[0])) == begun + Line(pieces[0]) + Clean(rest[0]);
    } else {
      FlowLineIsBlocks(pieces[1..], lines, []);
      var below := Above(pieces[1..], rest);
      assert ([[pieces[0]]] + below)[1..] == below;
      WholeBlocks(below);
    }
  }

  lemma SplitSqlIsFlow(sql: string)
    ensures SplitSql(sql) == Texts(Flow(Split(sql, NEWLINE), []))
  {
    StatementsAreTexts(Split(sql, SEMICOLON));
    CutsCommute(sql);
    FlowIsBlocks(Split(sql, NEWLINE), []);
    WholeBlocks(SplitEach(Split(sql, SEMICOLON), NEWLINE));
  }

  // ---------------------------------------------------------------------
  // Taking the comment lines out
  // ---------------------------------------------------------------------

  function CountLines(blocks: seq<seq<string>>): nat {
    if blocks == [] then 0 else |blocks[0]| + CountLines(blocks[1..])
  }

  function CountTexts(pieces: seq<string>): nat {
    if pieces == [] then 0 else |Line(pieces[0])| + CountTexts(pieces[1..])
  }

  function CountAll(lines: seq<string>): nat {
    if lines == [] then 0 else CountTexts(Split(lines[0], SEMICOLON)) + CountAll(lines[1..])
  }

  lemma {:induction false} CountConcat(a: seq<seq<string>>, b: seq<seq<string>>)
    ensures CountLines(a + b) == CountLines(a) + CountLines(b)
  {
    if a == [] {
      assert a + b == b;
    } else {
      CountConcat(a[1..], b);
      assert (a + b)[1..] == a[1..] + b;
    }
  }

  lemma {:induction false} FlowCounts(lines: seq<string>, begun: seq<string>)
    ensures CountLines(Flow(lines, begun)) == |begun| + CountAll(lines)
    decreases |lines|, 0
  {
    if lines != [] {
      FlowLineCounts(Split(lines[0], SEMICOLON), lines[1..], begun);
    }
  }

  lemma {:induction false} FlowLineCounts(pieces: seq<string>, lines: seq<string>, begun: seq<string>)
    requires pieces != []
    ensures CountLines(FlowLine(pieces, lines, begun)) == |begun| + CountTexts(pieces) + CountAll(lines)
    decreases |lines|, |pieces|
  {
    if |pieces| == 1 {
      FlowCounts(lines, begun + Line(pieces[0]));
      assert CountTexts(pieces[1..]) == 0;
    } else {
      FlowLineCounts(pieces[1..], lines, []);
      CountConcat(Block(begun + Line(pieces[0])), FlowLine(pieces[1..], lines, []));
    }
  }

  lemma WithoutFirst(lines: seq<string>)
    requires lines != []
    ensures IsComment(lines[0]) ==> WithoutComments(lines) == WithoutComments(lines[1..])
    ensures !IsComment(lines[0]) ==>
      var kept := WithoutComments(lines);
      kept != [] && kept[0] == lines[0] && kept[1..] == WithoutComments(lines[1..])
  {
    assert [] + WithoutComments(lines[1..]) == WithoutComments(lines[1..]);
  }

  /** Comment lines can only add text. */
  lemma {:induction false} FewerTexts(lines: seq<string>)
    ensures CountAll(WithoutComments(lines)) <= CountAll(lines)
  {
    if lines != [] {
      FewerTexts(lines[1..]);
      WithoutFirst(lines);
    }
  }

  lemma {:induction false} TextCounts(pieces: seq<string>, i: nat)
    requires i < |pieces| && HasText(pieces[i])
    ensures CountTexts(pieces) > 0
  {
    if i > 0 {
      TextCounts(pieces[1..], i - 1);
    }
  }

  lemma {:induction false} TrimRightIsPrefix(s: string)
    ensures TrimRight(GoSpace, s) <= s
    ensures |s| >= 2 && !GoSpace(s[1]) ==> |TrimRight(GoSpace, s)| >= 2
  {
    if s != "" && GoSpace(s[|s| - 1]) {
      TrimRightIsPrefix(s[..|s| - 1]);
    }
  }

  lemma DashesFirst(s: string)
    ensures HasPrefix(Trim(GoSpace, s), "--") <==> HasPrefix(TrimLeft(GoSpace, s), "--")
  {
    TrimRightIsPrefix(TrimLeft(GoSpace, s));
  }

  lemma {:induction false} DashesInFirstPiece(line: string)
    requires HasPrefix(TrimLeft(GoSpace, line), "--")
    ensures HasPrefix(TrimLeft(GoSpace, Split(line, SEMICOLON)[0]), "--")
  {
    var p := Split(line, SEMICOLON)[0];
    if GoSpace(line[0]) {
      DashesInFirstPiece(line[1..]);
      assert p[1..] == Split(line[1..], SEMICOLON)[0];
    } else {
      assert line[0] == '-' && line[1] == '-';
      var q := Split(line[1..], SEMICOLON)[0];
      assert line[1..][1..] == line[2..];
      assert q == ['-'] + Split(line[2..], SEMICOLON)[0];
      assert p == ['-'] + q;
    }
  }

  /** A comment line begins with the dashes, before its first semicolon. */
  lemma CommentStarts(line: string)
    requires IsComment(line)
    ensures Line(Split(line, SEMICOLON)[0]) == []
  {
    DashesFirst(line);
    DashesInFirstPiece(line);
    DashesFirst(Split(line, SEMICOLON)[0]);
  }

  lemma {:induction false} GoesOnWithout(lines: seq<string>)
    ensures GoesOn(WithoutComments(lines)) <==> GoesOn(lines)
  {
    if lines != [] {
      GoesOnWithout(lines[1..]);
      WithoutFirst(lines);
    }
  }

  ghost predicate NoComments(lines: seq<string>) {
    forall i :: 0 <= i < |lines| ==> !IsComment(lines[i])
  }

  lemma {:induction false} WithoutHasNone(lines: seq<string>)
    ensures NoComments(WithoutComments(lines))
  {
    if lines != [] {
      WithoutHasNone(lines[1..]);
    }
  }

  /** What becomes of an open statement: it stands alone, or it goes on. */
  lemma {:induction false} OpenStatement(lines: seq<string>, begun: seq<string>)
    requires begun != [] && NoComments(lines)
    ensures !GoesOn(lines) ==> Flow(lines, begun) == [begun] + Flow(lines, [])
    ensures GoesOn(lines) ==> Flow(lines, begun) != [] && |Flow(lines, begun)[0]| > |begun|
    decreases |lines|
  {
    if lines != [] {
      var ps, rest := Split(lines[0], SEMICOLON), lines[1..];
      assert !IsComment(lines[0]);
      assert begun + [] == begun && [] + Line(ps[0]) == Line(ps[0]);
      if |ps| == 1 {
        OpenStatement(rest, begun + Line(ps[0]));
        if HasText(ps[0]) {
          OpensLonger(rest, begun + Line(ps[0]));
        }
      }
    }
  }

  lemma {:induction false} OpensLonger(lines: seq<string>, begun: seq<string>)
    requires begun != []
    ensures Flow(lines, begun) != [] && |Flow(lines, begun)[0]| >= |begun|
    decreases |lines|
  {
    if lines != [] {
      var ps := Split(lines[0], SEMICOLON);
      if |ps| == 1 {
        OpensLonger(lines[1..], begun + Line(ps[0]));
      }
    }
  }

  /** The statements a comment line adds, or a statement it cuts in two. */
  lemma {:induction false} QuietPieces(pieces: seq<string>, lines: seq<string>, begun: seq<string>)
    requires |pieces| > 1 && Line(pieces[0]) == []
    requires forall i :: 1 <= i < |pieces| ==> !HasText(pieces[i])
    ensures FlowLine(pieces, lines, begun) == Block(begun) + Flow(lines, [])
    decreases |pieces|
  {
    var rest := pieces[1..];
    assert begun + [] == begun;
    if |rest| == 1 {
      assert [] + Line(rest[0]) == [];
    } else {
      QuietPieces(rest, lines, []);
      assert Block([]) + Flow(lines, []) == Flow(lines, []);
    }
  }

  lemma LoudPieces(lines: seq<string>, begun: seq<string>, i: nat)
    requires lines != [] && IsComment(lines[0])
    requires 1 <= i < |Split(lines[0], SEMICOLON)| && HasText(Split(lines[0], SEMICOLON)[i])
    ensures Flow(lines, begun) != Flow(WithoutComments(lines), begun)
  {
    FlowCounts(lines, begun);
    FlowCounts(WithoutComments(lines), begun);
    WithoutFirst(lines);
    FewerTexts(lines[1..]);
    TextCounts(Split(lines[0], SEMICOLON), i);
  }

  /** A comment line with semicolons and no text after them. */
  lemma QuietComment(lines: seq<string>, begun: seq<string>)
    requires lines != [] && IsComment(lines[0]) && |Split(lines[0], SEMICOLON)| > 1
    requires forall i :: 1 <= i < |Split(lines[0], SEMICOLON)| ==> !HasText(Split(lines[0], SEMICOLON)[i])
    ensures Flow(lines, begun) == Flow(WithoutComments(lines), begun)
       <==> !(begun != [] && GoesOn(lines[1..])) && Flow(lines[1..], []) == Flow(WithoutComments(lines[1..]), [])
  {
    var rest, kept := lines[1..], WithoutComments(lines[1..]);
    CommentStarts(lines[0]);
    QuietPieces(Split(lines[0], SEMICOLON), rest, begun);
    WithoutFirst(lines);
    if begun == [] {
      assert Block([]) + Flow(rest, []) == Flow(rest, []);
    } else {
      WithoutHasNone(rest);
      OpenStatement(kept, begun);
      GoesOnWithout(rest);
      SameEnd([begun], Flow(rest, []), Flow(kept, []));
    }
  }

  lemma {:induction false} FlowIff(lines: seq<string>, begun: seq<string>)
    ensures Flow(lines, begun) == Flow(WithoutComments(lines), begun) <==> Harmless(lines, begun != [])
    decreases |lines|, 0
  {
    if lines != [] {
      var ps, rest := Split(lines[0], SEMICOLON), lines[1..];
      WithoutFirst(lines);
      if !IsComment(lines[0]) {
        FlowLineIff(ps, rest, begun);
      } else {
        CommentStarts(lines[0]);
        assert begun + [] == begun;
        if |ps| == 1 {
          FlowIff(rest, begun);
        } else if i: nat :| 1 <= i < |ps| && HasText(ps[i]) {
          LoudPieces(lines, begun, i);
        } else {
          QuietComment(lines, begun);
          FlowIff(rest, []);
        }
      }
    }
  }

  lemma SameEnd<T>(first: seq<T>, a: seq<T>, b: seq<T>)
    ensures first + a == first + b <==> a == b
  {
    assert (first + a)[|first|..] == a && (first + b)[|first|..] == b;
  }

  /** Equal beginnings do not matter. */
  lemma {:induction false} FlowLineIff(pieces: seq<string>, lines: seq<string>, begun: seq<string>)
    requires pieces != []
    ensures FlowLine(pieces, lines, begun) == FlowLine(pieces, WithoutComments(lines), begun)
       <==> Harmless(lines, HasText(pieces[|pieces| - 1]) || (|pieces| == 1 && begun != []))
    decreases |lines|, |pieces| + 1
  {
    if |pieces| == 1 {
      FlowIff(lines, begun + Line(pieces[0]));
      assert begun + Line(pieces[0]) != [] <==> HasText(pieces[0]) || begun != [];
    } else {
      var rest := pieces[1..];
      FlowLineIff(rest, lines, []);
      assert rest[|rest| - 1] == pieces[|pieces| - 1];
      SameEnd(Block(begun + Line(pieces[0])), FlowLine(rest, lines, []), FlowLine(rest, WithoutComments(lines), []));
    }
  }

  /** Splitting a file gives what splitting it without its comment lines gives,
      if and only if in every comment line no text follows a semicolon and no
      semicolon stands inside a statement. */
  lemma CommentsHarmlessIff(sql: string)
    ensures SplitSql(Uncommented(sql)) == SplitSql(sql) <==> Harmless(Split(sql, NEWLINE), false)
  {
    var lines := Split(sql, NEWLINE);
    var kept := WithoutComments(lines);
    FlowIff(lines, []);
    SplitSqlIsFlow(sql);
    SplitSqlIsFlow(Uncommented(sql));
    UncommentedLines(sql);
    BlocksOfFile(sql);
    BlocksOfFile(Uncommented(sql));
    if SplitSql(Uncommented(sql)) == SplitSql(sql) {
      TextsDetermine(Flow(lines, []), Flow(kept, []));
    }
  }

  lemma BlocksOfFile(sql: string)
    ensures var b := Flow(Split(sql, NEWLINE), []);
      Proper(b) && forall i :: 0 <= i < |b| ==> b[i] != []
  {
    CutsCommute(sql);
    FlowIsBlocks(Split(sql, NEWLINE), []);
    WholeBlocks(SplitEach(Split(sql, SEMICOLON), NEWLINE));
    BlocksAreProper(Split(sql, SEMICOLON));
  }

  lemma UncommentedLines(sql: string)
    ensures Flow(Split(Uncommented(sql), NEWLINE), []) == Flow(WithoutComments(Split(sql, NEWLINE)), [])
  {
    var kept := WithoutComments(Split(sql, NEWLINE));
    if kept == [] {
      assert Split("", NEWLINE) == [""] && Split("", SEMICOLON) == [""];
      TrimKeeps(GoSpace, "");
      assert [] + Line("") == [] && [""][1..] == [];
      assert Flow([""], []) == FlowLine([""], [], []);
    } else {
      SplitParts(sql, NEWLINE);
      KeptAreLines(Split(sql, NEWLINE));
      SplitJoin(kept, NEWLINE);
    }
  }

  lemma {:induction false} KeptAreLines(lines: seq<string>)
    ensures forall i :: 0 <= i < |WithoutComments(lines)| ==> WithoutComments(lines)[i] in lines
  {
    if lines != [] {
      KeptAreLines(lines[1..]);
      WithoutFirst(lines);
      var kept := WithoutComments(lines);
      forall i | 0 <= i < |kept| ensures kept[i] in lines {
        if !IsComment(lines[0]) && i > 0 {
          assert kept[i] == kept[1..][i - 1];
        }
      }
    }
  }

  /** One fragment of one line. */
  lemma OneLine(piece: string)
    requires NEWLINE !in piece
    ensures Statement(piece) == if HasText(piece) then Trim(GoSpace, piece) else ""
  {
    SplitOne(piece, NEWLINE);
    CleanOne(piece);
    TrimKeeps(GoSpace, piece);
    TrimKeeps(GoSpace, Trim(GoSpace, piece));
    TrimKeeps(GoSpace, "");
  }

  lemma {:induction false} StaysComment(line: string, more: string)
    requires HasPrefix(TrimLeft(GoSpace, line), "--")
    ensures HasPrefix(TrimLeft(GoSpace, line + more), "--")
  {
    if GoSpace(line[0]) {
      StaysComment(line[1..], more);
      assert (line + more)[1..] == line[1..] + more;
    }
  }

  /** Text after a semicolon inside a comment line is executed. */
  lemma CommentTextIsExecuted(comment: string, text: string)
    requires IsComment(comment) && HasText(text) && Plain(comment) && Plain(text)
    ensures var sql := comment + [SEMICOLON] + text;
      && SplitSql(sql) == [Trim(GoSpace, text)]
      && IsComment(sql) && SplitSql(Uncommented(sql)) == []
  {
    SplitCons(comment, text, SEMICOLON);
    SplitOne(text, SEMICOLON);
    TextRemains(comment, text);
    var more := [SEMICOLON] + text;
    assert comment + [SEMICOLON] + text == comment + more;
    DashesFirst(comment);
    StaysComment(comment, more);
    DashesFirst(comment + more);
    OnlyComment(comment + more);
  }

  lemma TextRemains(comment: string, text: string)
    requires IsComment(comment) && HasText(text) && Plain(comment) && Plain(text)
    ensures Statements([comment] + [text]) == [Trim(GoSpace, text)]
  {
    OneLine(comment);
    OneLine(text);
    var both := [comment] + [text];
    assert both[..1] == [comment] && [comment][..0] == [];
    assert Statements([comment]) == [];
  }

  predicate Plain(s: string) {
    NEWLINE !in s && SEMICOLON !in s
  }

  lemma OnlyComment(line: string)
    requires IsComment(line) && NEWLINE !in line
    ensures SplitSql(Uncommented(line)) == []
  {
    var none: seq<string> := [];
    SplitOne(line, NEWLINE);
    assert WithoutComments([line][1..]) == none;
    assert Uncommented(line) == Join(none, [NEWLINE]) == Join(none, [SEMICOLON]);
    NormalIff(none);
    assert NormalForm(none);
  }

  /** For instance, of "-- a; b" the statement "b" is executed. */
  lemma CommentExample()
    ensures SplitSql("-- a" + [SEMICOLON] + " b") == ["b"]
  {
    var comment, text := "-- a", " b";
    assert !GoSpace('-') && TrimLeft(GoSpace, comment) == comment && comment[..2] == "--";
    DashesFirst(comment);
    assert TrimLeft(GoSpace, text) == TrimLeft(GoSpace, "b") == "b";
    assert TrimRight(GoSpace, "b") == "b";
    CommentTextIsExecuted(comment, text);
  }
}
