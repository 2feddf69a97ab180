/** The string operations both copies of ResXFile rely on: the two
    single-character String.Replace calls that normalise line endings, and
    string.IsNullOrWhiteSpace, which decides whether a comment is written. */
module Text {

  /** The values Environment.NewLine takes on the platforms .NET runs on. */
  predicate IsNewLine(nl: string) {
    nl == "\n" || nl == "\r\n"
  }

  /** s.Replace("\r", string.Empty): every carriage return is removed and
      every other character is kept, in order. */
  function Strip(s: string): (r: string)
    ensures '\r' !in r
    ensures |r| <= |s|
    ensures '\r' !in s ==> r == s
  {
    if s == [] then []
    else if s[0] == '\r' then Strip(s[1..])
    else [s[0]] + Strip(s[1..])
  }

  /** s.Replace("\n", nl): every line feed becomes the line-ending sequence nl. */
  function Expand(s: string, nl: string): (r: string)
    ensures '\n' !in s ==> r == s
    ensures nl == "\n" ==> r == s
    ensures |nl| >= 1 ==> |r| >= |s|
  {
    if s == [] then []
    else if s[0] == '\n' then nl + Expand(s[1..], nl)
    else [s[0]] + Expand(s[1..], nl)
  }

  /** The normalisation the library copy applies to a value or comment
      before handing it to the container writer. A string of one line is
      left as it is, and on a platform whose line ending is "\n" no
      carriage return is left. NormalizeUsesLineEnding states what it does
      to line endings in general. */
  function Normalize(s: string, nl: string): (r: string)
    ensures '\r' !in s && '\n' !in s ==> r == s
    ensures nl == "\n" ==> '\r' !in r
  {
    Expand(Strip(s), nl)
  }

  /** Every carriage return and every line feed of t belongs to an
      occurrence of the line-ending sequence nl, one of the two values
      IsNewLine admits: with "\r\n" every carriage return is followed by a
      line feed and every line feed preceded by a carriage return; with
      "\n" there is no carriage return at all. */
  predicate UsesLineEnding(t: string, nl: string) {
    && (forall i {:trigger t[i]} :: 0 <= i < |t| && t[i] == '\r' ==> nl == "\r\n" && i + 1 < |t| && t[i + 1] == '\n')
    && (forall i {:trigger t[i]} :: 0 <= i < |t| && t[i] == '\n' ==> nl == "\n" || (0 < i && t[i - 1] == '\r'))
  }

  lemma {:induction false} StripConcat(a: string, b: string)
    ensures Strip(a + b) == Strip(a) + Strip(b)
  {
    if a == [] {
      assert a + b == b;
    } else {
      assert (a + b)[0] == a[0];
      assert (a + b)[1..] == a[1..] + b;
      StripConcat(a[1..], b);
    }
  }

  lemma {:induction false} ExpandConcat(a: string, b: string, nl: string)
    ensures Expand(a + b, nl) == Expand(a, nl) + Expand(b, nl)
  {
    if a == [] {
      assert a + b == b;
    } else {
      assert (a + b)[0] == a[0];
      assert (a + b)[1..] == a[1..] + b;
      ExpandConcat(a[1..], b, nl);
    }
  }

  /** Stripping undoes an expansion to either platform line ending: the
      round trip Strip(Expand(x, nl)) == Strip(x). It holds for any x, also
      one that still carries carriage returns. */
  lemma {:induction false} StripExpand(s: string, nl: string)
    requires IsNewLine(nl)
    ensures Strip(Expand(s, nl)) == Strip(s)
  {
    if s != [] {
      var rest := Expand(s[1..], nl);
      StripExpand(s[1..], nl);
      assert s == [s[0]] + s[1..];
      StripConcat([s[0]], s[1..]);
      if s[0] == '\n' {
        assert Expand(s, nl) == nl + rest;
        StripConcat(nl, rest);
        StripNewLine(nl);
      } else {
        assert Expand(s, nl) == [s[0]] + rest;
        StripConcat([s[0]], rest);
      }
    }
  }

  /** Either platform line ending strips to a single line feed. */
  lemma StripNewLine(nl: string)
    requires IsNewLine(nl)
    ensures Strip(nl) == "\n"
  {
    if nl == "\r\n" {
      assert nl[1..] == "\n";
    }
  }

  /** The write normalisation is idempotent: normalising an already
      normalised string changes nothing. */
  lemma NormalizeIdempotent(s: string, nl: string)
    requires IsNewLine(nl)
    ensures Normalize(Normalize(s, nl), nl) == Normalize(s, nl)
  {
    StripExpand(Strip(s), nl);
  }

  /** Line endings made of nl stay whole when two such strings are joined. */
  lemma UsesLineEndingConcat(a: string, b: string, nl: string)
    requires UsesLineEnding(a, nl) && UsesLineEnding(b, nl)
    ensures UsesLineEnding(a + b, nl)
  {
    var t := a + b;
    forall i | 0 <= i < |t| && t[i] == '\r'
      ensures nl == "\r\n" && i + 1 < |t| && t[i + 1] == '\n'
    {
      if i < |a| {
        assert a[i] == '\r' && t[i + 1] == a[i + 1];
      } else {
        assert b[i - |a|] == '\r' && t[i + 1] == b[i + 1 - |a|];
      }
    }
    forall i | 0 <= i < |t| && t[i] == '\n'
      ensures nl == "\n" || (0 < i && t[i - 1] == '\r')
    {
      if i < |a| {
        assert a[i] == '\n';
      } else if i > |a| {
        assert b[i - |a|] == '\n' && t[i - 1] == b[i - 1 - |a|];
      } else {
        assert b[0] == '\n';
      }
    }
  }

  /** Expanding a string free of carriage returns yields one whose line
      endings are exactly nl. */
  lemma {:induction false} ExpandUsesLineEnding(s: string, nl: string)
    requires IsNewLine(nl)
    requires '\r' !in s
    ensures UsesLineEnding(Expand(s, nl), nl)
  {
    if s != [] {
      var head := if s[0] == '\n' then nl else [s[0]];
      var rest := Expand(s[1..], nl);
      ExpandUsesLineEnding(s[1..], nl);
      assert UsesLineEnding(head, nl);
      UsesLineEndingConcat(head, rest, nl);
      assert Expand(s, nl) == head + rest;
    }
  }

  /** What the library copy writes has Strip equal to the input's Strip and
      uses nl as its only line ending. */
  lemma NormalizeUsesLineEnding(s: string, nl: string)
    requires IsNewLine(nl)
    ensures Strip(Normalize(s, nl)) == Strip(s)
    ensures UsesLineEnding(Normalize(s, nl), nl)
  {
    StripExpand(Strip(s), nl);
    ExpandUsesLineEnding(Strip(s), nl);
  }

  /** The two properties above pin the normalised string down: a string
      whose line endings are all nl is the expansion of its own Strip. So
      Normalize(s, nl) is the only string that reads back as Strip(s) and
      uses nl throughout. */
  lemma {:induction false} UsesLineEndingIsExpansion(t: string, nl: string)
    requires IsNewLine(nl)
    requires UsesLineEnding(t, nl)
    ensures t == Expand(Strip(t), nl)
  {
    if t != [] {
      if t[0] == '\r' {
        assert nl == "\r\n" && t[1] == '\n';
        var rest := t[2..];
        assert t == "\r\n" + rest;
        UsesLineEndingTail(t, 2, nl);
        UsesLineEndingIsExpansion(rest, nl);
        StripConcat("\r\n", rest);
        assert Strip(t) == "\n" + Strip(rest);
        assert Strip(t)[1..] == Strip(rest);
      } else {
        if t[0] == '\n' {
          assert nl == "\n";
        }
        var rest := t[1..];
        assert t == [t[0]] + rest;
        UsesLineEndingTail(t, 1, nl);
        UsesLineEndingIsExpansion(rest, nl);
        StripConcat([t[0]], rest);
        assert Strip(t) == [t[0]] + Strip(rest);
        assert Strip(t)[1..] == Strip(rest);
      }
    }
  }

  /** Dropping a prefix that does not end inside a "\r\n" pair keeps the
      property. */
  lemma UsesLineEndingTail(t: string, k: nat, nl: string)
    requires UsesLineEnding(t, nl)
    requires 1 <= k <= |t| && t[k - 1] != '\r'
    ensures UsesLineEnding(t[k..], nl)
  {
    var u := t[k..];
    forall j | 0 <= j < |u| && u[j] == '\r'
      ensures nl == "\r\n" && j + 1 < |u| && u[j + 1] == '\n'
    {
      assert t[j + k] == '\r';
      assert t[j + k + 1] == '\n';
    }
    forall j | 0 <= j < |u| && u[j] == '\n'
      ensures nl == "\n" || (0 < j && u[j - 1] == '\r')
    {
      assert t[j + k] == '\n';
    }
  }

  /** Char.IsWhiteSpace: the Unicode space, line and paragraph separators,
      the control characters U+0009 to U+000D, and U+0085. Both line-ending
      characters are white space; no ASCII letter or digit is. */
  predicate IsWhiteSpace(c: char): (b: bool)
    ensures c == ' ' || c == '\t' || c == '\n' || c == '\r' ==> b
    ensures ('0' <= c <= '9') || ('A' <= c <= 'Z') || ('a' <= c <= 'z') ==> !b
  {
    || c == ' '
    || ('\t' <= c <= '\r')
    || c == '\U{0085}'
    || c == '\U{00A0}'
    || c == '\U{1680}'
    || ('\U{2000}' <= c <= '\U{200A}')
    || c == '\U{2028}'
    || c == '\U{2029}'
    || c == '\U{202F}'
    || c == '\U{205F}'
    || c == '\U{3000}'
  }

  /** string.IsNullOrWhiteSpace on a non-null string, checked character by
      character from the front: true exactly when every character is white
      space, so in particular for the empty string. */
  predicate IsNullOrWhiteSpace(s: string): (b: bool)
    ensures b <==> forall i :: 0 <= i < |s| ==> IsWhiteSpace(s[i])
  {
    s == [] || (IsWhiteSpace(s[0]) && IsNullOrWhiteSpace(s[1..]))
  }

  /** A carriage return is white space, so stripping neither makes a string
      blank nor keeps a blank one from being blank. */
  lemma {:induction false} StripKeepsBlankness(s: string)
    ensures IsNullOrWhiteSpace(Strip(s)) <==> IsNullOrWhiteSpace(s)
  {
    if s != [] {
      StripKeepsBlankness(s[1..]);
      if s[0] != '\r' {
        var r := Strip(s);
        assert r == [s[0]] + Strip(s[1..]);
        assert r[0] == s[0] && r[1..] == Strip(s[1..]);
      }
    }
  }
}
