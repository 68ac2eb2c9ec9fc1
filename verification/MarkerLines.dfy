/** Which lines are markers, and what they say: the line forms of
    `client/codemirror/conflict_markers.ts`, spelled out. */
module MarkerLines {
  import opened ConflictMarkers
  import opened Options

  /** The line is this text, with or without a carriage return behind it. */
  predicate Spells(line: string, text: string) {
    line == text + "\r" || (line == text && (text == "" || text[|text| - 1] != '\r'))
  }

  lemma StripIs(line: string, text: string)
    ensures StripTrailingCR(line) == text <==> Spells(line, text)
  {
    if StripTrailingCR(line) == text && line != text {
      assert line == line[..|line| - 1] + [line[|line| - 1]];
    }
  }

  lemma PrefixSplits(text: string, prefix: string)
    ensures StartsWith(text, prefix) ==> text == prefix + text[|prefix|..]
  {
  }

  lemma PrefixOf(prefix: string, rest: string)
    ensures StartsWith(prefix + rest, prefix) && (prefix + rest)[|prefix|..] == rest
  {
  }

  /** One of SB's markers with some hash. */
  ghost predicate IsSbLine(line: string, sb: string) {
    exists hash :: Spells(line, sb + hash)
  }

  /** A marker of SB's ends in its hash; any other line that begins as git's do is git's, with the rest
      as its title, less one space. */
  ghost predicate IsMarker(line: string, sb: string, git: string, m: Marker) {
    if m.kind.Sb? then m.title.None? && Spells(line, sb + m.hash)
    else
      && m.hash == "" && m.title.Some? && !IsSbLine(line, sb)
      && (Spells(line, git + (" " + m.title.value)) ||
          (Spells(line, git + m.title.value) && (m.title.value == "" || m.title.value[0] != ' ')))
  }

  lemma SbLineIff(line: string, sb: string)
    ensures IsSbLine(line, sb) <==> StartsWith(StripTrailingCR(line), sb)
  {
    hide Spells, StripTrailingCR;
    var text := StripTrailingCR(line);
    StripIs(line, text);
    PrefixSplits(text, sb);
    if hash :| Spells(line, sb + hash) {
      StripIs(line, sb + hash);
      PrefixOf(sb, hash);
    }
  }

  lemma TitleIff(rest: string, title: string)
    ensures SplitLabel(rest) == title <==>
            rest == " " + title || (rest == title && (title == "" || title[0] != ' '))
  {
    if rest != "" && rest[0] == ' ' {
      assert rest == " " + rest[1..];
    }
  }

  lemma TextIs(text: string, prefix: string, rest: string)
    ensures text == prefix + rest <==> StartsWith(text, prefix) && text[|prefix|..] == rest
  {
    PrefixSplits(text, prefix);
    PrefixOf(prefix, rest);
  }

  lemma MarkerIff(line: string, sb: string, git: string, m: Marker)
    ensures MatchMarker(line, sb, git) == Some(m) <==> IsMarker(line, sb, git, m)
  {
    hide Spells, StripTrailingCR, IsSbLine, SplitLabel;
    var text := StripTrailingCR(line);
    SbLineIff(line, sb);
    if m.kind.Sb? {
      StripIs(line, sb + m.hash);
      TextIs(text, sb, m.hash);
    } else if m.title.Some? {
      var title := m.title.value;
      StripIs(line, git + (" " + title));
      StripIs(line, git + title);
      TextIs(text, git, " " + title);
      TextIs(text, git, title);
      if StartsWith(text, git) {
        TitleIff(text[|git|..], title);
      }
    }
  }

  /** All marker lines, in both forms. */
  lemma MarkerLinesIff(line: string, m: Marker)
    ensures MatchStart(line) == Some(m) <==> IsMarker(line, "<<<<<<< SB sha256:", "<<<<<<<", m)
    ensures MatchBase(line) == Some(m) <==> IsMarker(line, "||||||| SB BASE sha256:", "|||||||", m)
    ensures MatchEnd(line) == Some(m) <==> IsMarker(line, ">>>>>>> SB sha256:", ">>>>>>>", m)
    ensures IsSeparator(line) <==> line == "=======" || line == "=======\r"
  {
    hide IsMarker, MatchMarker, StripTrailingCR;
    MarkerIff(line, SB_START, GIT_START, m);
    MarkerIff(line, SB_BASE, GIT_BASE, m);
    MarkerIff(line, SB_END, GIT_END, m);
    StripIs(line, SEPARATOR);
    assert SEPARATOR + "\r" == "=======\r";
  }
}
