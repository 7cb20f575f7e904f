/**
 * How one chat message is rendered: the text is split into lines; a line whose trimmed form starts and
 * ends with `**` becomes a heading shown with a trailing colon, every other line is kept untrimmed with
 * each `**x**` pair rewritten to `<strong>x</strong>` by a global regular expression with a lazy group
 * between two literal `**`.
 */
module ChatMessage {
  import opened Wrappers
  import opened Strings
  import opened Lists

  datatype Block = Heading(title: string) | Paragraph(html: string)

  /** The characters the regular expression's `.` does not match. */
  predicate IsLineTerminator(c: char)
  {
    c == '\n' || c == '\r' || c == '\U{2028}' || c == '\U{2029}'
  }

  /** `**` at position `p` of `s`. */
  predicate StarsAt(s: string, p: int)
  {
    0 <= p && p + 2 <= |s| && s[p] == '*' && s[p + 1] == '*'
  }

  /** No line terminator in `s[k..j]`. */
  predicate Plain(s: string, k: int, j: int)
    requires 0 <= k <= j <= |s|
  {
    forall q :: k <= q < j ==> !IsLineTerminator(s[q])
  }

  /**
   * The lazy group and closing `**` after an opening `**`: the first position of `t` holding `**` that is reached
   * without crossing a line terminator, or None when there is none.
   */
  function Closing(t: string): (j: Option<nat>)
    ensures j.Some? ==> StarsAt(t, j.value) && Plain(t, 0, j.value)
                        && forall p :: 0 <= p < j.value ==> !StarsAt(t, p)
    ensures j.None? ==> forall p :: StarsAt(t, p) ==> !Plain(t, 0, p)
    decreases |t|
  {
    if |t| < 2 then None
    else if t[0] == '*' && t[1] == '*' then Some(0)
    else if IsLineTerminator(t[0]) then None
    else
      ShiftFacts(t);
      match Closing(t[1..])
      case None => None
      case Some(j) => Some(j + 1)
  }

  /** How `StarsAt` and `Plain` on `t` relate to the same on `t[1..]`. */
  lemma ShiftFacts(t: string)
    requires t != []
    ensures forall p :: 1 <= p ==> (StarsAt(t, p) <==> StarsAt(t[1..], p - 1))
    ensures forall p :: 1 <= p <= |t| ==> (Plain(t, 0, p) <==> !IsLineTerminator(t[0]) && Plain(t[1..], 0, p - 1))
  {
    forall p | 1 <= p <= |t| ensures Plain(t, 0, p) <==> !IsLineTerminator(t[0]) && Plain(t[1..], 0, p - 1) {
      if !IsLineTerminator(t[0]) && Plain(t[1..], 0, p - 1) {
        forall q | 0 <= q < p ensures !IsLineTerminator(t[q]) {
          if q > 0 {
            assert t[q] == t[1..][q - 1];
          }
        }
      }
    }
  }

  /**
   * The global replace of every `**x**` by `<strong>x</strong>`: at each position, from the left, an
   * opening `**` with a closing one is rewritten and the scan resumes after it; otherwise one character
   * is kept and the scan moves on.
   */
  function Emphasize(s: string): string
    decreases |s|
  {
    if s == [] then []
    else if StarsAt(s, 0) && Closing(s[2..]).Some? then
      var j := Closing(s[2..]).value;
      "<strong>" + s[2..2 + j] + "</strong>" + Emphasize(s[2 + j + 2..])
    else [s[0]] + Emphasize(s[1..])
  }

  /** How `StarsAt` and `Plain` on a suffix `s[k..]` relate to the same on `s`. */
  lemma SuffixFacts(s: string, k: nat)
    requires k <= |s|
    ensures forall p :: 0 <= p ==> (StarsAt(s[k..], p) <==> StarsAt(s, p + k))
    ensures forall a, b :: 0 <= a <= b <= |s| - k ==> (Plain(s[k..], a, b) <==> Plain(s, a + k, b + k))
  {
    forall a, b | 0 <= a <= b <= |s| - k ensures Plain(s[k..], a, b) <==> Plain(s, a + k, b + k) {
      if Plain(s, a + k, b + k) {
        forall q | a <= q < b ensures !IsLineTerminator(s[k..][q]) {
          assert s[k..][q] == s[q + k];
        }
      }
      if Plain(s[k..], a, b) {
        forall q | a + k <= q < b + k ensures !IsLineTerminator(s[q]) {
          assert s[k..][q - k] == s[q];
        }
      }
    }
  }

  /** Some opening `**` is followed, on the same line, by a closing `**`: the expression has a match. */
  ghost predicate HasPair(s: string)
  {
    exists p, j :: StarsAt(s, p) && p + 2 <= j && StarsAt(s, j) && Plain(s, p + 2, j)
  }

  /** The rewrite never shortens a line. */
  lemma {:induction false} EmphasizeLonger(s: string)
    ensures |Emphasize(s)| >= |s|
    decreases |s|
  {
    if s != [] {
      if StarsAt(s, 0) && Closing(s[2..]).Some? {
        var j := Closing(s[2..]).value;
        EmphasizeLonger(s[2 + j + 2..]);
      } else {
        EmphasizeLonger(s[1..]);
      }
    }
  }

  /** A line in which the expression finds no match is rendered unchanged. */
  lemma {:induction false} EmphasizeWithoutPair(s: string)
    ensures HasPair(s) || Emphasize(s) == s
    decreases |s|
  {
    if s != [] {
      if StarsAt(s, 0) && Closing(s[2..]).Some? {
        var j := Closing(s[2..]).value;
        SuffixFacts(s, 2);
        assert StarsAt(s, j + 2) && Plain(s, 2, j + 2);
        assert HasPair(s);
      } else {
        EmphasizeWithoutPair(s[1..]);
        if HasPair(s[1..]) {
          var p, j :| StarsAt(s[1..], p) && p + 2 <= j && StarsAt(s[1..], j) && Plain(s[1..], p + 2, j);
          SuffixFacts(s, 1);
          assert StarsAt(s, p + 1) && StarsAt(s, j + 1) && Plain(s, p + 3, j + 1);
        } else {
          assert s == [s[0]] + s[1..];
        }
      }
    }
  }

  /** A line in which the expression finds a match gets longer, so it is changed. */
  lemma {:induction false} EmphasizeWithPair(s: string)
    ensures !HasPair(s) || |Emphasize(s)| > |s|
    decreases |s|
  {
    if s != [] {
      if StarsAt(s, 0) && Closing(s[2..]).Some? {
        var j := Closing(s[2..]).value;
        EmphasizeLonger(s[2 + j + 2..]);
      } else {
        EmphasizeWithPair(s[1..]);
        if |Emphasize(s[1..])| <= |s| - 1 {
          NoPairAfterFirst(s);
        }
      }
    }
  }

  /** No match starts at the front and none lies in the rest: then there is none at all. */
  lemma NoPairAfterFirst(s: string)
    requires s != [] && !(StarsAt(s, 0) && Closing(s[2..]).Some?)
    requires !HasPair(s[1..])
    ensures !HasPair(s)
  {
    SuffixFacts(s, 1);
    forall p, j | StarsAt(s, p) && p + 2 <= j && StarsAt(s, j) ensures !Plain(s, p + 2, j) {
      if p == 0 {
        SuffixFacts(s, 2);
        assert StarsAt(s[2..], j - 2);
        assert !Plain(s[2..], 0, j - 2);
      } else {
        assert StarsAt(s[1..], p - 1) && StarsAt(s[1..], j - 1);
        assert !Plain(s[1..], p + 1, j - 1);
      }
    }
  }

  /** The rewrite changes a line exactly when the expression has a match in it. */
  lemma EmphasizeChangesIff(s: string)
    ensures Emphasize(s) == s <==> !HasPair(s)
  {
    EmphasizeWithoutPair(s);
    EmphasizeWithPair(s);
  }

  /** Text without asterisks passes through the rewrite untouched. */
  lemma {:induction false} EmphasizeStarFree(a: string, b: string)
    requires '*' !in a
    ensures Emphasize(a + b) == a + Emphasize(b)
    decreases |a|
  {
    if a == [] {
      assert a + b == b;
    } else {
      assert (a + b)[0] == a[0];
      assert (a + b)[1..] == a[1..] + b;
      EmphasizeStarFree(a[1..], b);
    }
  }

  /** A pair around star-free text on one line becomes a `<strong>` element. */
  lemma EmphasizeWrapped(x: string, b: string)
    requires '*' !in x
    requires forall i :: 0 <= i < |x| ==> !IsLineTerminator(x[i])
    ensures Emphasize("**" + x + "**" + b) == "<strong>" + x + "</strong>" + Emphasize(b)
  {
    var s := "**" + x + "**" + b;
    var t := s[2..];
    assert t == x + "**" + b;
    assert StarsAt(t, |x|);
    assert Plain(t, 0, |x|);
    assert forall p :: 0 <= p < |x| ==> t[p] == x[p];
    var j := Closing(t).value;
    assert j == |x|;
    assert s[2..2 + j] == x;
    assert s[2 + j + 2..] == b;
  }

  /** A line is a heading when its trimmed form starts and ends with `**`. */
  predicate IsHeading(line: string)
  {
    var t := Trim(line);
    StartsWith(t, "**") && EndsWith(t, "**")
  }

  /** `trimmedLine.slice(2, -2)`: empty when the trimmed line is shorter than four characters. */
  function HeadingTitle(t: string): (title: string)
    ensures |title| == if |t| >= 4 then |t| - 4 else 0
    ensures |t| >= 4 ==> t == t[..2] + title + t[|t| - 2..]
  {
    if |t| >= 4 then t[2..|t| - 2] else []
  }

  /** The block one line becomes. */
  function RenderLine(line: string): (b: Block)
    ensures b.Heading? <==> IsHeading(line)
    ensures b.Heading? && |Trim(line)| >= 4 ==> "**" + b.title + "**" == Trim(line)
    ensures b.Heading? && |Trim(line)| < 4 ==> b.title == []
    ensures b.Paragraph? ==> b.html == Emphasize(line)
  {
    var t := Trim(line);
    if StartsWith(t, "**") && EndsWith(t, "**") then Heading(HeadingTitle(t))
    else Paragraph(Emphasize(line))
  }

  /** The text a block shows: a heading's title with a colon, a paragraph's markup. */
  function Shown(b: Block): (text: string)
    ensures b.Heading? ==> text == b.title + ":"
  {
    match b
    case Heading(title) => title + ":"
    case Paragraph(html) => html
  }

  /** `message.split('\n').map(...)`: one block per line, in order. */
  function Render(message: string): (blocks: seq<Block>)
    ensures |blocks| == |Split(message, '\n')|
    ensures forall i :: 0 <= i < |blocks| ==> blocks[i] == RenderLine(Split(message, '\n')[i])
  {
    Map(Split(message, '\n'), RenderLine)
  }

  /** There is one block more than there are line breaks. */
  lemma RenderBlockCount(message: string)
    ensures |Render(message)| == multiset(message)['\n'] + 1
  {
    SplitCount(message, '\n');
  }

  /** A line wrapped in `**` with no other stars becomes a heading with the wrapped text. */
  lemma RenderBoldLine(title: string)
    requires '*' !in title
    ensures RenderLine("**" + title + "**") == Heading(title)
  {
    var head := "**" + title + "**";
    assert head[0] == '*' && head[|head| - 1] == '*';
    assert Trim(head) == head;
    assert head[..2] == "**" && head[|head| - 2..] == "**";
    assert head[2..|head| - 2] == title;
  }

  /** A line without stars is a paragraph showing the line unchanged. */
  lemma RenderStarFreeLine(body: string)
    requires '*' !in body
    ensures RenderLine(body) == Paragraph(body)
  {
    var t := Trim(body);
    assert !StartsWith(t, "**") by {
      if |t| >= 2 {
        TrimWithin(body);
        assert t[0] in body;
      }
    }
    EmphasizeStarFree(body, []);
    assert body + [] == body;
  }

  /** Two lines without line breaks joined by one split back into those two lines. */
  lemma SplitTwo(a: string, b: string)
    requires '\n' !in a && '\n' !in b
    ensures Split(a + ['\n'] + b, '\n') == [a, b]
  {
    SplitCons(a, '\n', b);
    SplitNone(b, '\n');
  }

  /** A message that splits into two lines renders as those two lines, in order. */
  lemma RenderTwoLines(message: string, a: string, b: string)
    requires Split(message, '\n') == [a, b]
    ensures Render(message) == [RenderLine(a), RenderLine(b)]
  {
    MapTwo(a, b, RenderLine);
  }

  /** A bold first line followed by a plain line: a heading showing the title with a colon, then the line as it is. */
  lemma RenderHeadingThenLine(title: string, body: string)
    requires '*' !in title && '\n' !in title
    requires '*' !in body && '\n' !in body
    ensures Render("**" + title + "**" + "\n" + body) == [Heading(title), Paragraph(body)]
    ensures Shown(Heading(title)) == title + ":"
  {
    var head := "**" + title + "**";
    assert '\n' !in head;
    SplitTwo(head, body);
    RenderTwoLines(head + "\n" + body, head, body);
    RenderBoldLine(title);
    RenderStarFreeLine(body);
  }

  /** The example answer `**Svar**` followed by `Dette er et svar.`. */
  lemma RenderExample()
    ensures Render("**Svar**\nDette er et svar.") == [Heading("Svar"), Paragraph("Dette er et svar.")]
  {
    assert "**Svar**\nDette er et svar." == "**" + "Svar" + "**" + "\n" + "Dette er et svar.";
    assert '*' !in "Svar" && '\n' !in "Svar";
    assert '*' !in "Dette er et svar." && '\n' !in "Dette er et svar.";
    RenderHeadingThenLine("Svar", "Dette er et svar.");
  }
}
