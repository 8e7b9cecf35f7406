/** The reader and the editor of `update.skip` on whole config texts, with their own ways to split lines. */
module SkipConfigText {
  import opened Text
  import opened SkipConfig
  import opened SkipConfigTheorems

  /** The reader splits at LF. */
  function ReadText(text: string): seq<string> {
    Read(Outside, Kinds(Split(text, '\n')))
  }

  function DropCR(line: string): string {
    if line != "" && line[|line| - 1] == '\r' then line[..|line| - 1] else line
  }

  function DropCRs(pieces: seq<string>): (lines: seq<string>)
    requires forall piece | piece in pieces :: '\n' !in piece
    ensures |lines| == |pieces|
    ensures forall line | line in lines :: '\n' !in line
  {
    if |pieces| <= 1 then pieces
    else
      assert pieces[0] in pieces;
      assert '\n' !in DropCR(pieces[0]);
      [DropCR(pieces[0])] + DropCRs(pieces[1..])
  }

  /** The editor splits at LF or CRLF; a CR at the very end of the text is not part of a line break. */
  function EditorLines(text: string): (lines: seq<string>)
    ensures |lines| >= 1
    ensures forall line | line in lines :: '\n' !in line
  {
    DropCRs(Split(text, '\n'))
  }

  function NewlineOf(text: string): string {
    if Contains(text, "\r\n") then "\r\n" else "\n"
  }

  function EditText(text: string, gone: set<string>): string {
    var lines := EditorLines(text);
    var ks := Kinds(lines);
    if Within(Read(Outside, ks), gone) == [] then text
    else
      var body := JoinWith(Kept(lines, Keep(ks, gone)), NewlineOf(text));
      if EndsWith(text, "\n") && !EndsWith(body, "\n") then body + NewlineOf(text) else body
  }

  method RemoveUpdateSkipPathsFromConfig(text: string, gone: set<string>) returns (edited: string, removed: seq<string>)
    ensures edited == EditText(text, gone)
    ensures removed == Within(ReadText(text), gone)
  {
    var lines := EditorLines(text);
    EditorLinesKinds(text);
    var keep: seq<bool>;
    keep, removed := RemoveSkipPaths(Kinds(lines), gone);
    if removed == [] {
      return text, [];
    }
    edited := JoinWith(Kept(lines, keep), NewlineOf(text));
    if EndsWith(text, "\n") && !EndsWith(edited, "\n") {
      edited := edited + NewlineOf(text);
    }
  }

  /** A trailing CR never matters: both machines look at the trimmed line. */
  lemma TrimCR(line: string)
    ensures KindOf(line + "\r") == KindOf(line)
  {
    assert (line + "\r")[..|line + "\r"| - 1] == line;
    assert TrimEnd(line + "\r") == TrimEnd(line);
  }

  ghost predicate IgnoresCR<K(!new)>(f: string -> K) {
    forall line: string :: f(line + "\r") == f(line)
  }

  lemma KindOfIgnoresCR()
    ensures IgnoresCR(KindOf)
  {
    forall line: string
      ensures KindOf(line + "\r") == KindOf(line)
    {
      TrimCR(line);
    }
  }

  lemma {:induction false} DropCRsKinds<K(!new)>(f: string -> K, pieces: seq<string>)
    requires IgnoresCR(f) && forall piece | piece in pieces :: '\n' !in piece
    ensures MapLines(f, DropCRs(pieces)) == MapLines(f, pieces)
  {
    if |pieces| > 1 {
      DropCRsKinds(f, pieces[1..]);
      var first := DropCR(pieces[0]);
      assert first == pieces[0] || first + "\r" == pieces[0];
      assert MapLines(f, [first] + DropCRs(pieces[1..])) == [f(first)] + MapLines(f, DropCRs(pieces[1..]));
      assert MapLines(f, pieces) == [f(pieces[0])] + MapLines(f, pieces[1..]);
    }
  }

  lemma EditorLinesKinds(text: string)
    ensures Kinds(EditorLines(text)) == Kinds(Split(text, '\n'))
  {
    KindOfIgnoresCR();
    DropCRsKinds(KindOf, Split(text, '\n'));
  }

  lemma {:induction false} MapOfKept<K>(f: string -> K, lines: seq<string>, keep: seq<bool>)
    requires |lines| == |keep|
    ensures MapLines(f, Kept(lines, keep)) == Kept(MapLines(f, lines), keep)
  {
    if lines != [] {
      MapOfKept(f, lines[1..], keep[1..]);
      assert MapLines(f, lines)[1..] == MapLines(f, lines[1..]);
    }
  }

  lemma MapCons<K>(f: string -> K, line: string, rest: seq<string>)
    ensures MapLines(f, [line] + rest) == [f(line)] + MapLines(f, rest)
  {
  }

  lemma {:induction false} JoinedMap<K(!new)>(f: string -> K, lines: seq<string>, nl: string)
    requires IgnoresCR(f) && lines != [] && nl in {"\n", "\r\n"} && forall line | line in lines :: '\n' !in line
    ensures MapLines(f, Split(JoinWith(lines, nl), '\n')) == MapLines(f, lines)
  {
    var first := lines[0];
    assert first in lines;
    if |lines| == 1 {
      SplitOne(first, '\n');
      assert lines == [first];
    } else {
      var rest := JoinWith(lines[1..], nl);
      var head := if nl == "\n" then first else first + "\r";
      assert JoinWith(lines, nl) == head + ['\n'] + rest;
      SplitAppend(head, rest, '\n');
      JoinedMap(f, lines[1..], nl);
      MapCons(f, head, Split(rest, '\n'));
      MapCons(f, first, lines[1..]);
      assert lines == [first] + lines[1..] && f(head) == f(first);
    }
  }

  lemma {:induction false} SplitTrailing<K(!new)>(f: string -> K, s: string, nl: string)
    requires IgnoresCR(f) && nl in {"\n", "\r\n"}
    ensures MapLines(f, Split(s + nl, '\n')) == MapLines(f, Split(s, '\n')) + [f("")]
  {
    if '\n' !in s {
      var head := if nl == "\n" then s else s + "\r";
      assert s + nl == head + ['\n'] + "";
      SplitAppend(head, "", '\n');
      SplitOne(s, '\n');
      assert f(head) == f(s);
      MapCons(f, head, [""]);
    } else {
      var i := FirstBreak(s);
      var a, b := s[..i], s[i + 1..];
      assert s == a + ['\n'] + b && s + nl == a + ['\n'] + (b + nl);
      SplitAppend(a, b, '\n');
      SplitAppend(a, b + nl, '\n');
      SplitTrailing(f, b, nl);
      MapCons(f, a, Split(b + nl, '\n'));
      MapCons(f, a, Split(b, '\n'));
    }
  }

  function FirstBreak(s: string): (i: nat)
    requires '\n' in s
    ensures i < |s| && s[i] == '\n' && '\n' !in s[..i]
  {
    if s[0] == '\n' then 0 else
      assert s == [s[0]] + s[1..];
      1 + FirstBreak(s[1..])
  }

  lemma {:induction false} QuietTail(place: Place, ks: seq<Kind>)
    ensures Read(place, ks + [Quiet]) == Read(place, ks)
  {
    WalkAppend(place, ks, [Quiet]);
    assert Read(Walk(place, ks), [Quiet]) == [];
  }

  lemma EmptyLineIsQuiet()
    ensures KindOf("") == Quiet
  {
  }

  /** Splitting the joined lines gives them back, as far as the reader can tell. */
  lemma ReadJoined(lines: seq<string>, nl: string)
    requires nl in {"\n", "\r\n"} && forall line | line in lines :: '\n' !in line
    ensures var body := JoinWith(lines, nl);
            ReadText(body) == Read(Outside, Kinds(lines)) && ReadText(body + nl) == ReadText(body)
  {
    var body := JoinWith(lines, nl);
    KindOfIgnoresCR();
    EmptyLineIsQuiet();
    if lines != [] {
      JoinedMap(KindOf, lines, nl);
    } else {
      assert Split("", '\n') == [""];
      assert Kinds([""]) == [] + [Quiet];
      QuietTail(Outside, []);
    }
    SplitTrailing(KindOf, body, nl);
    QuietTail(Outside, Kinds(Split(body, '\n')));
  }

  /** Reading the edited text is reading the kept lines. */
  lemma ReadAfterEdit(text: string, gone: set<string>)
    ensures ReadText(EditText(text, gone)) == Read(Outside, Edited(Kinds(Split(text, '\n')), gone))
  {
    var lines := EditorLines(text);
    var ks := Kinds(lines);
    EditorLinesKinds(text);
    if Within(Read(Outside, ks), gone) == [] {
      NothingGone(Outside, ks, gone);
      AllKept(ks, KeepEntries(Outside, ks, gone));
    } else {
      var kept := Kept(lines, Keep(ks, gone));
      MapOfKept(KindOf, lines, Keep(ks, gone));
      forall line | line in kept
        ensures '\n' !in line
      {
        KeptSubset(lines, Keep(ks, gone), line);
      }
      ReadJoined(kept, NewlineOf(text));
    }
  }

  /** Exactly when reading after an edit gives the old list less the removed paths. */
  lemma EditCommutes(text: string, gone: set<string>)
    ensures ReadText(EditText(text, gone)) == Without(ReadText(text), gone)
            <==> || Without(ReadText(text), gone) != [] || ReadText(text) == []
                 || (!HidesSecondList(Kinds(Split(text, '\n'))) && !RevivesEntry(Kinds(Split(text, '\n'))))
  {
    var ks := Kinds(Split(text, '\n'));
    ReadAfterEdit(text, gone);
    if Without(Read(Outside, ks), gone) != [] {
      CommutesWhileItemsRemain(ks, gone);
    } else if Read(Outside, ks) != [] {
      CommutesWhenEmptied(ks, gone);
    } else {
      EntriesCommute(Outside, ks, gone);
    }
  }

  /** Where it does, a second removal of the same paths leaves the text alone. */
  lemma SecondRemovalIsIdle(text: string, gone: set<string>)
    requires ReadText(EditText(text, gone)) == Without(ReadText(text), gone)
    ensures EditText(EditText(text, gone), gone) == EditText(text, gone)
  {
    WithoutLeavesNone(ReadText(text), gone);
    EditorLinesKinds(EditText(text, gone));
  }
}
