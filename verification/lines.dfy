/** Newline-terminated lines: joining lines into a text, cutting a text
    into lines, and cutting a fixed prefix and suffix off a line. The
    emitted assembly and both tree dumps are read back through these. */
module Lines {
  import opened Results
  import opened Text

  predicate NotNewline(c: char) {
    c != '\n'
  }

  predicate NoNewline(t: string) {
    forall i :: 0 <= i < |t| ==> t[i] != '\n'
  }

  lemma NoNewlineConcat(a: string, b: string)
    ensures NoNewline(a + b) <==> NoNewline(a) && NoNewline(b)
  {
    if NoNewline(a) && NoNewline(b) {
      forall i | 0 <= i < |a + b| ensures (a + b)[i] != '\n' {
        if i >= |a| {
          assert (a + b)[i] == b[i - |a|];
        }
      }
    }
    if NoNewline(a + b) {
      forall i | 0 <= i < |b| ensures b[i] != '\n' {
        assert (a + b)[|a| + i] == b[i];
      }
      forall i | 0 <= i < |a| ensures a[i] != '\n' {
        assert (a + b)[i] == a[i];
      }
    }
  }

  /** Each line followed by a newline. */
  function JoinLines(ls: seq<string>): (r: string)
    ensures |r| >= |ls|
  {
    if |ls| == 0 then "" else ls[0] + "\n" + JoinLines(ls[1..])
  }

  /** Cuts a text into its newline-terminated lines; `None` when the text
      does not end with a newline. */
  function SplitLines(s: string): (r: Option<seq<string>>)
    ensures r.Some? ==> forall i :: 0 <= i < |r.value| ==> NoNewline(r.value[i])
    decreases |s|
  {
    if |s| == 0 then Some([])
    else
      var k := SpanEnd(s, 0, NotNewline);
      if k == |s| then None
      else
        match SplitLines(s[k + 1..])
        case None => None
        case Some(rest) =>
          assert NoNewline(s[..k]) by {
            forall i | 0 <= i < k ensures s[..k][i] != '\n' {
              assert NotNewline(s[i]);
            }
          }
          Some([s[..k]] + rest)
  }

  lemma {:induction false} JoinLinesAppend(a: seq<string>, b: seq<string>)
    ensures JoinLines(a + b) == JoinLines(a) + JoinLines(b)
  {
    if |a| == 0 {
      assert a + b == b;
    } else {
      assert (a + b)[0] == a[0];
      assert (a + b)[1..] == a[1..] + b;
      JoinLinesAppend(a[1..], b);
    }
  }

  /** Splitting the joined lines gives the lines back, as long as no line
      holds a newline of its own. */
  lemma {:induction false} SplitJoin(ls: seq<string>)
    requires forall i :: 0 <= i < |ls| ==> NoNewline(ls[i])
    ensures SplitLines(JoinLines(ls)).Some? && SplitLines(JoinLines(ls)).value == ls
  {
    if |ls| > 0 {
      var s := JoinLines(ls);
      var k := |ls[0]|;
      assert s == ls[0] + ("\n" + JoinLines(ls[1..]));
      forall j | 0 <= j < k ensures NotNewline(s[j]) {
        assert s[j] == ls[0][j];
      }
      assert s[k] == '\n';
      SpanEndUnique(s, 0, NotNewline, k);
      assert s[..k] == ls[0];
      assert s[k + 1..] == JoinLines(ls[1..]);
      SplitJoin(ls[1..]);
      assert [ls[0]] + ls[1..] == ls;
    }
  }

  lemma JoinTwo(x: string, y: string)
    ensures JoinLines([x, y]) == x + "\n" + (y + "\n")
  {
    assert [x, y][1..] == [y];
    assert JoinLines([y]) == y + "\n" + JoinLines([]);
  }

  /** The three head lines that both trees print for a function node, the
      last one opening the field that holds the body. */
  lemma FunctionHead(i0: string, i1: string, name: string, field: string)
    ensures JoinLines([i0 + "Function(", i1 + "name=\"" + name + "\",", i1 + field])
         == i0 + "Function(\n" + i1 + "name=\"" + name + "\",\n" + i1 + (field + "\n")
  {
    var ls := [i0 + "Function(", i1 + "name=\"" + name + "\",", i1 + field];
    assert JoinLines(ls[2..]) == ls[2] + "\n" + JoinLines([]);
    assert JoinLines(ls[1..]) == ls[1] + "\n" + JoinLines(ls[2..]);
  }

  lemma AppendNewline(a: string, b: string)
    ensures a + b + "\n" == a + (b + "\n")
  {
  }

  /** The middle of `line` between a given prefix and suffix, if it has
      them (and they do not overlap). */
  function StripAround(line: string, pre: string, post: string): (r: Option<string>)
    ensures r.Some? ==> line == pre + r.value + post
  {
    if |pre| + |post| <= |line| && line[..|pre|] == pre && line[|line| - |post|..] == post then
      Some(line[|pre|..|line| - |post|])
    else None
  }

  lemma StripAroundOf(pre: string, mid: string, post: string)
    ensures StripAround(pre + mid + post, pre, post) == Some(mid)
  {
    var line := pre + mid + post;
    assert line[..|pre|] == pre;
    assert line[|line| - |post|..] == post;
    assert line[|pre|..|line| - |post|] == mid;
  }

  lemma IndentNoNewline(n: nat)
    ensures NoNewline(Indent(n))
  {
  }

  /** A rendered `int` is a sign and digits, never a newline or a comma. */
  lemma IntToStringPlain(v: int)
    ensures forall i :: 0 <= i < |IntToString(v)| ==> IntToString(v)[i] != '\n' && IntToString(v)[i] != ','
  {
    var t := IntToString(v);
    if v < 0 {
      var m := NatToString(-v);
      forall i | 0 <= i < |t| ensures t[i] != '\n' && t[i] != ',' {
        if i > 0 {
          assert t[i] == m[i - 1];
          assert IsDigit(m[i - 1]);
        }
      }
    } else {
      forall i | 0 <= i < |t| ensures t[i] != '\n' && t[i] != ',' {
        assert IsDigit(t[i]);
      }
    }
  }

  /** Lines around a block of lines. */
  lemma Wrap(heads: seq<string>, inner: string, innerLines: seq<string>, close: string)
    requires inner + "\n" == JoinLines(innerLines)
    ensures JoinLines(heads) + inner + "\n" + close + "\n" == JoinLines(heads + innerLines + [close])
  {
    JoinLinesAppend(heads + innerLines, [close]);
    JoinLinesAppend(heads, innerLines);
    assert JoinLines([close]) == close + "\n" + JoinLines([]);
  }

  lemma OpenLine(a: string, b: string)
    ensures JoinLines([a + b]) == a + (b + "\n")
  {
    assert JoinLines([a + b]) == a + b + "\n" + JoinLines([]);
  }

  /** A node that opens with `<name>(`, holds a block of lines and closes
      with `)` on a line of its own, all at indentation `i`. */
  lemma Block(i: string, name: string, inner: string, innerLines: seq<string>)
    requires inner + "\n" == JoinLines(innerLines)
    ensures i + (name + "(\n") + inner + "\n" + i + ")" + "\n" == JoinLines([i + (name + "(")] + innerLines + [i + ")"])
  {
    OpenLine(i, name + "(");
    AppendNewline(name, "(");
    Wrap([i + (name + "(")], inner, innerLines, i + ")");
  }

  lemma IndentedNoNewline(k: nat, t: string)
    requires NoNewline(t)
    ensures NoNewline(Indent(k) + t)
  {
    IndentNoNewline(k);
    NoNewlineConcat(Indent(k), t);
  }
}
