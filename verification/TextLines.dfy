/** Text as Python sees it: white space, lower case, and the characters at which a text is split into lines. */
module TextLines {

  predicate White(c: char) {
    || '\t' <= c <= '\r' || '\U{1c}' <= c <= ' ' || c == '\U{85}' || c == '\U{a0}' || c == '\U{1680}'
    || '\U{2000}' <= c <= '\U{200a}' || c == '\U{2028}' || c == '\U{2029}' || c == '\U{202f}' || c == '\U{205f}'
    || c == '\U{3000}'
  }

  predicate IsBreak(c: char) {
    || '\n' <= c <= '\r' || '\U{1c}' <= c <= '\U{1e}' || c == '\U{85}' || c == '\U{2028}' || c == '\U{2029}'
  }

  /** The characters at which Python's splitlines splits, one by one. */
  lemma BreaksAre(c: char)
    ensures IsBreak(c) <==> c in "\n\U{b}\U{c}\r\U{1c}\U{1d}\U{1e}\U{85}\U{2028}\U{2029}"
    ensures IsBreak(c) ==> White(c)
  {
    var all := "\n\U{b}\U{c}\r\U{1c}\U{1d}\U{1e}\U{85}\U{2028}\U{2029}";
    if IsBreak(c) {
      assert exists i :: 0 <= i < |all| && all[i] == c by {
        assert all[0] == '\n' && all[1] == '\U{b}' && all[2] == '\U{c}' && all[3] == '\r' && all[4] == '\U{1c}'
               && all[5] == '\U{1d}' && all[6] == '\U{1e}' && all[7] == '\U{85}' && all[8] == '\U{2028}'
               && all[9] == '\U{2029}';
      }
    }
  }

  /** The characters that Python takes for white space: five control characters and four separators, the space, and
      beyond ASCII these. */
  lemma WhiteAre(c: char)
    ensures White(c)
            <==> c in "\t\n\U{b}\U{c}\r" || c in "\U{1c}\U{1d}\U{1e}\U{1f} " || c in "\U{85}\U{a0}\U{1680}"
                 || c in "\U{2000}\U{2001}\U{2002}\U{2003}\U{2004}\U{2005}\U{2006}\U{2007}\U{2008}\U{2009}\U{200a}"
                 || c in "\U{2028}\U{2029}\U{202f}\U{205f}\U{3000}"
  {
    var controls, separators, wide := "\t\n\U{b}\U{c}\r", "\U{1c}\U{1d}\U{1e}\U{1f} ", "\U{85}\U{a0}\U{1680}";
    var quads, rest := "\U{2000}\U{2001}\U{2002}\U{2003}\U{2004}\U{2005}\U{2006}\U{2007}\U{2008}\U{2009}\U{200a}",
                       "\U{2028}\U{2029}\U{202f}\U{205f}\U{3000}";
    if '\t' <= c <= '\r' {
      assert controls[c as int - 9] == c;
    } else if '\U{1c}' <= c <= ' ' {
      assert separators[c as int - 0x1c] == c;
    } else if '\U{2000}' <= c <= '\U{200a}' {
      assert quads[c as int - 0x2000] == c;
    } else {
      assert wide[0] == '\U{85}' && wide[1] == '\U{a0}' && wide[2] == '\U{1680}';
      assert rest[0] == '\U{2028}' && rest[1] == '\U{2029}' && rest[2] == '\U{202f}' && rest[3] == '\U{205f}'
             && rest[4] == '\U{3000}';
    }
  }

  predicate Blank(line: string) {
    forall c :: c in line ==> White(c)
  }

  function LowerChar(c: char): char {
    if 'A' <= c <= 'Z' then ((c as int) - ('A' as int) + ('a' as int)) as char else c
  }

  function Lower(s: string): string {
    seq(|s|, i requires 0 <= i < |s| => LowerChar(s[i]))
  }

  /** Capital letters become small ones, in the order of the alphabet, and all else stays. */
  lemma LowerLetters(s: string)
    ensures Lower("ABCDEFGHIJKLMNOPQRSTUVWXYZ") == "abcdefghijklmnopqrstuvwxyz"
    ensures (forall i :: 0 <= i < |s| ==> s[i] !in "ABCDEFGHIJKLMNOPQRSTUVWXYZ") ==> Lower(s) == s
  {
    var capitals := "ABCDEFGHIJKLMNOPQRSTUVWXYZ";
    forall i | 0 <= i < 26 ensures capitals[i] == ('A' as int + i) as char {
    }
    forall c | 'A' <= c <= 'Z' ensures c in capitals {
      assert capitals[c as int - 'A' as int] == c;
    }
  }

  /** The pieces between break characters, the first preceded by what was scanned already. Where Python
      takes two break characters for one, or drops an empty last piece, there is one blank piece more. */
  function Lines(text: string, scanned: string): seq<string>
    decreases |text|
  {
    if text == "" then [scanned]
    else if IsBreak(text[0]) then [scanned] + Lines(text[1..], "")
    else Lines(text[1..], scanned + [text[0]])
  }

  ghost predicate Unbroken(text: string) {
    forall c :: c in text ==> !IsBreak(c)
  }

  lemma {:induction false} LinesUnbroken(text: string, scanned: string)
    requires Unbroken(text)
    ensures Lines(text, scanned) == [scanned + text]
    decreases |text|
  {
    if text == "" {
      assert scanned + "" == scanned;
    } else {
      assert text[0] in text;
      assert scanned + text == scanned + [text[0]] + text[1..];
      LinesUnbroken(text[1..], scanned + [text[0]]);
    }
  }

  lemma {:induction false} LinesBroken(text: string, scanned: string)
    requires !Unbroken(text)
    ensures |Lines(text, scanned)| > 1
    decreases |text|
  {
    if !IsBreak(text[0]) {
      assert text == [text[0]] + text[1..];
      LinesBroken(text[1..], scanned + [text[0]]);
    } else {
      LinesExist(text[1..], "");
    }
  }

  lemma {:induction false} LinesExist(text: string, scanned: string)
    ensures Lines(text, scanned) != []
    decreases |text|
  {
    if text != "" && !IsBreak(text[0]) {
      LinesExist(text[1..], scanned + [text[0]]);
    }
  }

  /** A line holds only characters of the text. */
  lemma {:induction false} PieceWithin(text: string, scanned: string, piece: string, c: char)
    requires piece in Lines(text, scanned) && c !in text && c !in scanned
    ensures c !in piece
    decreases |text|
  {
    if text != "" {
      assert c !in text[1..];
      if !IsBreak(text[0]) {
        PieceWithin(text[1..], scanned + [text[0]], piece, c);
      } else if piece != scanned {
        PieceWithin(text[1..], "", piece, c);
      }
    }
  }

  /** A break character separates lines. */
  lemma {:induction false} LinesConcat(a: string, c: char, b: string, scanned: string)
    requires IsBreak(c)
    ensures Lines(a + [c] + b, scanned) == Lines(a, scanned) + Lines(b, "")
    decreases |a|
  {
    var text := a + [c] + b;
    if a == "" {
      assert text[0] == c && text[1..] == b;
    } else {
      assert text[0] == a[0] && text[1..] == a[1..] + [c] + b;
      LinesConcat(a[1..], c, b, if IsBreak(a[0]) then "" else scanned + [a[0]]);
      if IsBreak(a[0]) {
        assert [scanned] + (Lines(a[1..], "") + Lines(b, "")) == ([scanned] + Lines(a[1..], "")) + Lines(b, "");
      }
    }
  }
}
