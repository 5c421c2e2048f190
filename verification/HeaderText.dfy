/**
 Two loops of the generator over plain text (src/core/dbus/generator.cpp:516-540, 618-640): splitting an interface name
 at its dots, and buffering the introspection document as the inside of a C++ string literal.
 */
module HeaderText {
  import opened Sequences
  import opened Wrappers

  // ---------------------------------------------------------------- names

  /** Components joined by dots. */
  function Dotted(cs: seq<string>): string
    requires cs != []
  {
    if |cs| == 1 then cs[0] else cs[0] + "." + Dotted(cs[1..])
  }

  predicate Undotted(cs: seq<string>) {
    forall i | 0 <= i < |cs| :: '.' !in cs[i]
  }

  /** The place of the next dot, or the end. */
  function NextDot(s: string, i: nat): (n: nat)
    requires i <= |s|
    ensures i <= n <= |s| && '.' !in s[i..n] && (n < |s| ==> s[n] == '.')
    decreases |s| - i
  {
    if i == |s| || s[i] == '.' then i else NextDot(s, i + 1)
  }

  lemma {:induction false} FirstDot(s: string, i: nat, n: nat)
    requires i <= n <= |s| && (forall j | i <= j < n :: s[j] != '.') && (n < |s| ==> s[n] == '.')
    ensures NextDot(s, i) == n
    decreases n - i
  {
    if i < n {
      FirstDot(s, i + 1, n);
    }
  }

  lemma FirstComponent(cs: seq<string>)
    requires cs != [] && Undotted(cs)
    ensures NextDot(Dotted(cs), 0) == |cs[0]| && Dotted(cs)[..|cs[0]|] == cs[0]
    ensures |Dotted(cs)| == |cs[0]| <==> |cs| == 1
  {
    var s, n := Dotted(cs), |cs[0]|;
    assert forall j | 0 <= j < n :: s[j] == cs[0][j];
    FirstDot(s, 0, n);
  }

  /** A dotted name has one set of components. */
  lemma {:induction false} DottedInjective(cs: seq<string>, ds: seq<string>)
    requires cs != [] && ds != [] && Undotted(cs) && Undotted(ds) && Dotted(cs) == Dotted(ds)
    ensures cs == ds
    decreases |cs|
  {
    FirstComponent(cs);
    FirstComponent(ds);
    if |cs| > 1 {
      DropFront(cs[0] + ".", Dotted(cs[1..]), Dotted(ds[1..]));
      DottedInjective(cs[1..], ds[1..]);
    }
    assert cs == [cs[0]] + cs[1..] && ds == [ds[0]] + ds[1..];
  }

  /** The components of a name: at least one, possibly empty. */
  function Components(s: string): (cs: seq<string>)
    ensures cs != []
    decreases |s|
  {
    var n := NextDot(s, 0);
    if n == |s| then [s] else [s[..n]] + Components(s[n + 1..])
  }

  lemma {:induction false} ComponentsDotted(s: string)
    ensures Undotted(Components(s)) && Dotted(Components(s)) == s
    decreases |s|
  {
    var n := NextDot(s, 0);
    assert s[0..n] == s[..n];
    if n < |s| {
      ComponentsDotted(s[n + 1..]);
      assert s == s[..n] + "." + s[n + 1..];
    } else {
      assert s[..n] == s;
    }
  }

  /** A split_iterator: the token it points at, or past the last one. */
  datatype Iterator = At(begin: nat, end: nat) | Eof

  predicate OnToken(s: string, it: Iterator) {
    it.At? ==> it.begin <= it.end <= |s| && '.' !in s[it.begin..it.end] && (it.end < |s| ==> s[it.end] == '.')
  }

  function First(s: string): (it: Iterator)
    ensures it.At? && OnToken(s, it)
  {
    At(0, NextDot(s, 0))
  }

  function Next(s: string, it: Iterator): (r: Iterator)
    requires OnToken(s, it) && it.At?
    ensures OnToken(s, r)
  {
    if it.end == |s| then Eof else At(it.end + 1, NextDot(s, it.end + 1))
  }

  /** parse_namespaces_and_interface_from_dbus_name, with one iterator a token ahead of the other. */
  method SplitName(name: string) returns (namespaces: seq<string>, interface: string)
    ensures Dotted(namespaces + [interface]) == name && Undotted(namespaces + [interface])
    ensures namespaces + [interface] == Components(name)
  {
    var it := First(name);
    var ahead := Next(name, it);
    namespaces := [];
    SplitStart(name);
    while ahead.At?
      invariant Splitting(name, namespaces, it) && ahead == Next(name, it)
      decreases |name| - it.end
    {
      SplitStep(name, namespaces, it);
      namespaces := namespaces + [name[it.begin..it.end]];
      it := ahead;
      ahead := Next(name, ahead);
    }
    SplitEnd(name, namespaces, it);
    interface := name[it.begin..it.end];
  }

  /** cs are the components in front of the one that `it` points at. */
  ghost predicate Splitting(s: string, cs: seq<string>, it: Iterator) {
    it.At? && OnToken(s, it) && Undotted(cs) && Dotted(cs + [s[it.begin..]]) == s
  }

  lemma SplitStart(s: string)
    ensures Splitting(s, [], First(s))
  {
    assert [] + [s[0..]] == [s];
  }

  lemma SplitEnd(s: string, cs: seq<string>, it: Iterator)
    requires Splitting(s, cs, it) && Next(s, it) == Eof
    ensures Dotted(cs + [s[it.begin..it.end]]) == s && Undotted(cs + [s[it.begin..it.end]])
    ensures cs + [s[it.begin..it.end]] == Components(s)
  {
    assert s[it.begin..] == s[it.begin..it.end];
    AreComponents(s, cs + [s[it.begin..it.end]]);
  }

  lemma AreComponents(s: string, cs: seq<string>)
    requires cs != [] && Undotted(cs) && Dotted(cs) == s
    ensures cs == Components(s)
  {
    ComponentsDotted(s);
    DottedInjective(cs, Components(s));
  }

  lemma SplitStep(s: string, cs: seq<string>, it: Iterator)
    requires Splitting(s, cs, it) && it.end < |s|
    ensures Splitting(s, cs + [s[it.begin..it.end]], Next(s, it))
  {
    CutToken(s, it.begin, it.end);
    DottedSplit(cs, s[it.begin..it.end], s[it.end + 1..]);
  }

  lemma CutToken(s: string, i: nat, n: nat)
    requires i <= n < |s| && s[n] == '.'
    ensures s[i..] == s[i..n] + "." + s[n + 1..]
  {
  }

  lemma {:induction false} DottedSplit(cs: seq<string>, c: string, d: string)
    ensures Dotted(cs + [c] + [d]) == Dotted(cs + [c + "." + d])
    decreases |cs|
  {
    if cs == [] {
      assert [] + [c] + [d] == [c, d] && [c, d][1..] == [d];
    } else {
      DottedSplit(cs[1..], c, d);
      assert (cs + [c] + [d])[1..] == cs[1..] + [c] + [d];
      assert (cs + [c + "." + d])[1..] == cs[1..] + [c + "." + d];
    }
  }

  // ---------------------------------------------------------------- the document as a string literal

  predicate IsControl(c: char) {
    c < ' ' || c == 127 as char
  }

  /** Blank, tab, line feed, vertical tab, form feed and carriage return. */
  predicate IsSpace(c: char) {
    c == ' ' || (9 as char <= c <= 13 as char)
  }

  /** The document without control characters, and without blanks outside of tags. */
  function Filtered(s: string, inTag: bool): string {
    if s == "" then ""
    else if s[0] == '<' then "<" + Filtered(s[1..], true)
    else if s[0] == '>' then ">" + Filtered(s[1..], false)
    else if s[0] != '"' && (IsControl(s[0]) || (!inTag && IsSpace(s[0]))) then Filtered(s[1..], inTag)
    else [s[0]] + Filtered(s[1..], inTag)
  }

  /** Text with a backslash in front of every quote. */
  function Escaped(s: string): string {
    if s == "" then "" else (if s[0] == '"' then "\\\"" else [s[0]]) + Escaped(s[1..])
  }

  /** The characters a string literal with these contents stands for; None if it ends early or holds another escape. */
  function Unescaped(s: string): Option<string> {
    if s == "" then Some("")
    else if s[0] == '"' then None
    else if s[0] != '\\' then Prepended(s[0], Unescaped(s[1..]))
    else if |s| == 1 || (s[1] != '"' && s[1] != '\\') then None
    else Prepended(s[1], Unescaped(s[2..]))
  }

  function Prepended(c: char, s: Option<string>): Option<string> {
    match s
    case None => None
    case Some(t) => Some([c] + t)
  }

  lemma {:induction false} EscapedConcat(s: string, t: string)
    ensures Escaped(s + t) == Escaped(s) + Escaped(t)
  {
    if s == "" {
      assert s + t == t;
    } else {
      assert (s + t)[1..] == s[1..] + t;
      EscapedConcat(s[1..], t);
    }
  }

  /** The loop of invoke_for_model_with_configuration over the characters of the file. */
  method Buffer(file: string) returns (buffer: string)
    ensures buffer == Escaped(Filtered(file, false))
  {
    var stateIsTagOpen := false;
    buffer := "";
    assert file[0..] == file;
    for i := 0 to |file|
      invariant buffer + Escaped(Filtered(file[i..], stateIsTagOpen)) == Escaped(Filtered(file, false))
    {
      var c := file[i];
      BufferStep(buffer, file[i..], stateIsTagOpen);
      assert file[i..][1..] == file[i + 1..];
      if c == '<' {
        stateIsTagOpen := true;
        buffer := buffer + [c];
        continue;
      } else if c == '>' {
        stateIsTagOpen := false;
        buffer := buffer + [c];
        continue;
      } else if c == '"' {
        buffer := buffer + "\\\"";
        continue;
      }
      if IsControl(c) { continue; }
      if !stateIsTagOpen && IsSpace(c) { continue; }
      buffer := buffer + [c];
    }
  }

  lemma BufferStep(buffer: string, s: string, inTag: bool)
    requires s != ""
    ensures var c := s[0];
            buffer + Escaped(Filtered(s, inTag)) ==
            if c == '<' then buffer + [c] + Escaped(Filtered(s[1..], true))
            else if c == '>' then buffer + [c] + Escaped(Filtered(s[1..], false))
            else if c == '"' then buffer + "\\\"" + Escaped(Filtered(s[1..], inTag))
            else if IsControl(c) || (!inTag && IsSpace(c)) then buffer + Escaped(Filtered(s[1..], inTag))
            else buffer + [c] + Escaped(Filtered(s[1..], inTag))
  {
    var tag := s[0] == '<' || (s[0] != '>' && inTag);
    var f := Filtered(s[1..], tag);
    EscapedCons(s[0], f);
    Group(buffer, if s[0] == '"' then "\\\"" else [s[0]], Escaped(f));
  }

  lemma EscapedCons(c: char, s: string)
    ensures Escaped([c] + s) == (if c == '"' then "\\\"" else [c]) + Escaped(s)
  {
    assert ([c] + s)[1..] == s;
  }

  lemma {:induction false} UnescapedLength(s: string)
    ensures Unescaped(Escaped(s)).Some? ==> |Unescaped(Escaped(s)).value| <= |s|
    decreases |s|
  {
    if s != "" {
      EscapedHead(s);
      UnescapedLength(s[1..]);
      if s[0] == '\\' && s[1..] != "" {
        EscapedHead(s[1..]);
        UnescapedLength(s[2..]);
        assert s[1..][1..] == s[2..];
      }
    }
  }

  /** How the literal of a text begins. */
  lemma EscapedHead(s: string)
    requires s != ""
    ensures s[0] == '"' ==> Escaped(s)[0] == '\\' && Escaped(s)[1] == '"' && Escaped(s)[2..] == Escaped(s[1..])
    ensures s[0] != '"' ==> Escaped(s)[0] == s[0] && Escaped(s)[1..] == Escaped(s[1..])
  {
  }

  /** Escaping can be undone exactly as long as there is no backslash. */
  lemma {:induction false} UnescapedExactly(s: string)
    ensures Unescaped(Escaped(s)) == Some(s) <==> '\\' !in s
    decreases |s|
  {
    if s != "" {
      EscapedHead(s);
      UnescapedExactly(s[1..]);
      assert s == [s[0]] + s[1..];
      if s[0] == '\\' && s[1..] != "" {
        EscapedHead(s[1..]);
        UnescapedLength(s[2..]);
        assert s[1..][1..] == s[2..];
      }
    }
  }

  lemma {:induction false} BackslashKept(s: string, inTag: bool)
    ensures '\\' in Filtered(s, inTag) <==> '\\' in s
    decreases |s|
  {
    if s != "" {
      BackslashKept(s[1..], s[0] == '<' || (s[0] != '>' && inTag));
      assert s == [s[0]] + s[1..];
    }
  }

  /** The buffered document, read as the inside of a string literal, is the filtered document exactly when the document
      holds no backslash. */
  lemma BufferedExactly(file: string)
    ensures Unescaped(Escaped(Filtered(file, false))) == Some(Filtered(file, false)) <==> '\\' !in file
  {
    UnescapedExactly(Filtered(file, false));
    BackslashKept(file, false);
  }

  /** Every quote in the buffer is escaped. */
  lemma {:induction false} QuotesEscaped(s: string)
    ensures forall i | 0 <= i < |Escaped(s)| :: Escaped(s)[i] == '"' ==> i > 0 && Escaped(s)[i - 1] == '\\'
    decreases |s|
  {
    if s != "" {
      QuotesEscaped(s[1..]);
      EscapedHead(s);
      var e, r := Escaped(s), Escaped(s[1..]);
      var n := |e| - |r|;
      forall i | 0 <= i < |e| && e[i] == '"' ensures i > 0 && e[i - 1] == '\\' {
        if i >= n {
          assert r[i - n] == '"' && r[i - n - 1] == '\\';
        }
      }
    }
  }

  /** The last angle bracket among the characters before n is an opening one. */
  predicate InTag(s: string, n: nat)
    requires n <= |s|
  {
    exists j :: 0 <= j < n && s[j] == '<' && forall k | j < k < n :: s[k] != '<' && s[k] != '>'
  }

  /** Control characters go, and outside tags blanks. */
  predicate Stays(s: string, n: nat)
    requires n < |s|
  {
    var c := s[n] as int;
    c >= 32 && c != 127 && (c == 32 ==> InTag(s, n))
  }

  /** The characters among the first n that stay. */
  function Staying(s: string, n: nat): string
    requires n <= |s|
  {
    if n == 0 then "" else Staying(s, n - 1) + if Stays(s, n - 1) then [s[n - 1]] else ""
  }

  lemma InTagNext(s: string, n: nat)
    requires n < |s|
    ensures InTag(s, n + 1) <==> s[n] == '<' || (s[n] != '>' && InTag(s, n))
  {
    if s[n] != '<' && s[n] != '>' && InTag(s, n) {
      var j :| 0 <= j < n && s[j] == '<' && forall k | j < k < n :: s[k] != '<' && s[k] != '>';
      assert forall k | j < k < n + 1 :: s[k] != '<' && s[k] != '>';
    }
  }

  /** The filter keeps exactly those characters, in their order. */
  lemma FilteredIsStaying(file: string)
    ensures Filtered(file, false) == Staying(file, |file|)
  {
    FilteredFrom(file, 0);
    assert file[0..] == file;
  }

  lemma {:induction false} FilteredFrom(s: string, n: nat)
    requires n <= |s|
    ensures Staying(s, n) + Filtered(s[n..], InTag(s, n)) == Staying(s, |s|)
    decreases |s| - n
  {
    if n < |s| {
      var r := s[n..];
      assert r[1..] == s[n + 1..];
      InTagNext(s, n);
      FilteredFrom(s, n + 1);
      var c := if Stays(s, n) then [s[n]] else "";
      assert Filtered(r, InTag(s, n)) == c + Filtered(s[n + 1..], InTag(s, n + 1));
      Group(Staying(s, n), c, Filtered(s[n + 1..], InTag(s, n + 1)));
    }
  }

  /** Nothing in it that a tag could not hold, and no quotes. */
  predicate Plain(s: string) {
    forall i | 0 <= i < |s| :: s[i] != '<' && s[i] != '>' && s[i] != '"' && !IsControl(s[i])
  }

  /** Inside a tag, such text is kept. */
  lemma {:induction false} TagKept(s: string)
    requires Plain(s)
    ensures Filtered(s + ">", true) == s + ">" && Escaped(s + ">") == s + ">"
  {
    if s == "" {
      assert Filtered(">"[1..], false) == "" && Escaped(">"[1..]) == "";
    } else {
      assert (s + ">")[1..] == s[1..] + ">";
      TagKept(s[1..]);
    }
  }

  lemma OneTag(s: string)
    requires Plain(s)
    ensures var file := "<" + (s + ">"); Filtered(file, false) == file && Escaped(file) == file
  {
    var file := "<" + (s + ">");
    assert file[1..] == s + ">";
    TagKept(s);
  }

  lemma PlainNode(name: string)
    requires Plain(name)
    ensures Plain("node name='" + name + "'/")
  {
    assert Plain("node name='") && Plain("'/");
  }

  lemma Within(a: string, s: string, b: string, c: char)
    requires c in s
    ensures c in a + s + b && c in a + (s + b)
  {
    var i :| 0 <= i < |s| && s[i] == c;
    assert (a + s + b)[|a| + i] == c && (a + (s + b))[|a| + i] == c;
  }

  /** A node with a backslash in its name: in the buffer it is the start of an escape. */
  lemma BackslashLost(name: string)
    requires Plain(name) && '\\' in name
    ensures var file := "<" + ("node name='" + name + "'/" + ">");
            var buffer := Escaped(Filtered(file, false));
            buffer == file && Unescaped(buffer) != Some(file)
  {
    var s := "node name='" + name + "'/";
    PlainNode(name);
    OneTag(s);
    BufferedExactly("<" + (s + ">"));
    Within("node name='", name, "'/", '\\');
    Within("<", s, ">", '\\');
  }
}
