/** The wiki-link parsers of internal/adapter/nadapter/mdadapter/parser.go.
    `[[name]]` and `[[name|description]]` become a file node prerendered
    with the FILE template; a line `[[FILES]]` becomes a files block
    prerendered with the FILES template. The text is a sequence of Unicode
    characters; the length tests count UTF-8 bytes (Utf8Length), and the
    reader is the current line of a source text and an offset into it. */
module Parser {
  import opened Common
  import opened Entity
  import opened Render
  import opened Resolver

  const StartSeq: string := "[["
  const EndSeq: string := "]]"
  const FileNameMinLength: nat := 5
  const FilesLength: nat := 5
  const WordFiles: string := "FILES"

  // ---------------------------------------------------------------
  // Byte-slice helpers: bytes.Index, bytes.HasPrefix, bytes.TrimSpace

  predicate OccursAt(s: string, pat: string, i: int)
  {
    0 <= i && i + |pat| <= |s| && s[i..i + |pat|] == pat
  }

  /** The first occurrence of `pat` in `s` at or after `k`, or -1. */
  function IndexFrom(s: string, pat: string, k: nat): (r: int)
    decreases |s| - k
    ensures r == -1 || (k <= r && r + |pat| <= |s|)
  {
    if k + |pat| > |s| then -1
    else if s[k..k + |pat|] == pat then k
    else IndexFrom(s, pat, k + 1)
  }

  lemma {:induction false} IndexFromFirst(s: string, pat: string, k: nat)
    decreases |s| - k
    ensures var r := IndexFrom(s, pat, k);
      (r == -1 ==> forall i :: k <= i ==> !OccursAt(s, pat, i)) &&
      (r != -1 ==> OccursAt(s, pat, r) && forall i :: k <= i < r ==> !OccursAt(s, pat, i))
  {
    if k + |pat| <= |s| && s[k..k + |pat|] != pat {
      IndexFromFirst(s, pat, k + 1);
    }
  }

  /** bytes.Index. */
  function Index(s: string, pat: string): (r: int)
    ensures r == -1 || (0 <= r && r + |pat| <= |s|)
  {
    IndexFrom(s, pat, 0)
  }

  /** bytes.Index answers the first occurrence, or -1 when there is none. */
  lemma IndexFirst(s: string, pat: string)
    ensures Index(s, pat) == -1 <==> forall i :: 0 <= i ==> !OccursAt(s, pat, i)
    ensures Index(s, pat) != -1 ==>
              OccursAt(s, pat, Index(s, pat)) && forall i :: 0 <= i < Index(s, pat) ==> !OccursAt(s, pat, i)
  {
    IndexFromFirst(s, pat, 0);
  }

  predicate HasPrefix(s: string, p: string)
  {
    |p| <= |s| && s[..|p|] == p
  }

  /** The white space bytes.TrimSpace removes: the ASCII white space and,
      past the first non-ASCII byte, the rest of what unicode.IsSpace
      accepts (NEL, NO-BREAK SPACE and the Unicode White_Space spaces). */
  predicate IsSpace(c: char)
  {
    var n := c as int;
    (9 <= n <= 13) || n == 0x20 || n == 0x85 || n == 0xA0 || n == 0x1680 ||
    (0x2000 <= n <= 0x200A) || n == 0x2028 || n == 0x2029 || n == 0x202F ||
    n == 0x205F || n == 0x3000
  }

  /** The number of bytes of a character in UTF-8. */
  function Utf8Width(c: char): (w: nat)
    ensures 1 <= w <= 4 && (w == 1 <==> c as int < 0x80)
  {
    if c as int < 0x80 then 1
    else if c as int < 0x800 then 2
    else if c as int < 0x10000 then 3
    else 4
  }

  /** `len` of the text as a Go byte slice: its length in UTF-8 bytes, at
      least one per character and exactly one per ASCII character. */
  function Utf8Length(s: string): (n: nat)
    ensures n >= |s|
    ensures n == |s| <==> forall i :: 0 <= i < |s| ==> s[i] as int < 0x80
  {
    if s == [] then 0
    else
      var rest := Utf8Length(s[1..]);
      assert forall i :: 1 <= i < |s| ==> s[i] == s[1..][i - 1];
      Utf8Width(s[0]) + rest
  }

  function LeadingSpaces(s: string): (n: nat)
    ensures n <= |s|
  {
    if s != [] && IsSpace(s[0]) then 1 + LeadingSpaces(s[1..]) else 0
  }

  lemma {:induction false} LeadingSpacesSpaces(s: string)
    ensures var n := LeadingSpaces(s);
      (forall i :: 0 <= i < n ==> IsSpace(s[i])) && (n < |s| ==> !IsSpace(s[n]))
  {
    if s != [] && IsSpace(s[0]) {
      LeadingSpacesSpaces(s[1..]);
      assert forall i :: 1 <= i < |s| ==> s[i] == s[1..][i - 1];
    }
  }

  function TrailingSpaces(s: string): (n: nat)
    ensures n <= |s|
  {
    if s != [] && IsSpace(s[|s| - 1]) then 1 + TrailingSpaces(s[..|s| - 1]) else 0
  }

  lemma {:induction false} TrailingSpacesSpaces(s: string)
    ensures var n := TrailingSpaces(s);
      (forall i :: |s| - n <= i < |s| ==> IsSpace(s[i])) && (n < |s| ==> !IsSpace(s[|s| - n - 1]))
  {
    if s != [] && IsSpace(s[|s| - 1]) {
      TrailingSpacesSpaces(s[..|s| - 1]);
      assert forall i :: 0 <= i < |s| - 1 ==> s[i] == s[..|s| - 1][i];
    }
  }

  /** bytes.TrimSpace: the text left once the white space at both ends is
      cut. */
  function TrimSpace(s: string): (r: string)
    ensures |r| <= |s|
  {
    var l := s[LeadingSpaces(s)..];
    l[..|l| - TrailingSpaces(l)]
  }

  /** What TrimSpace cuts is white space and what it leaves starts and
      ends with something else. */
  lemma TrimSpaceCuts(s: string)
    ensures var i, r := LeadingSpaces(s), TrimSpace(s);
      i + |r| <= |s| && r == s[i..i + |r|] &&
      (forall k :: 0 <= k < |s| && (k < i || i + |r| <= k) ==> IsSpace(s[k])) &&
      (r == [] || (!IsSpace(r[0]) && !IsSpace(r[|r| - 1])))
  {
    TrimSpaceSlice(s);
    TrimSpaceCutSpaces(s);
    TrimSpaceEnds(s);
  }

  /** TrimSpace leaves a slice of its input, starting after the leading
      white space. */
  lemma TrimSpaceSlice(s: string)
    ensures var i, r := LeadingSpaces(s), TrimSpace(s);
      i + |r| <= |s| && r == s[i..i + |r|]
  {
    var i := LeadingSpaces(s);
    var l := s[i..];
    var r := l[..|l| - TrailingSpaces(l)];
    assert r == TrimSpace(s);
    assert r == s[i..i + |r|];
  }

  /** Everything outside that slice is white space. */
  lemma TrimSpaceCutSpaces(s: string)
    ensures var i, r := LeadingSpaces(s), TrimSpace(s);
      forall k :: 0 <= k < |s| && (k < i || i + |r| <= k) ==> IsSpace(s[k])
  {
    var i := LeadingSpaces(s);
    var l := s[i..];
    var t := TrailingSpaces(l);
    assert |TrimSpace(s)| == |l| - t;
    forall k | 0 <= k < |s| && (k < i || i + |l| - t <= k) ensures IsSpace(s[k]) {
      if k < i {
        LeadingSpacesSpaces(s);
      } else {
        TrailingSpacesSpaces(l);
        assert s[k] == l[k - i];
      }
    }
  }

  /** What TrimSpace leaves neither starts nor ends with white space. */
  lemma TrimSpaceEnds(s: string)
    ensures var r := TrimSpace(s); r == [] || (!IsSpace(r[0]) && !IsSpace(r[|r| - 1]))
  {
    var i := LeadingSpaces(s);
    var l := s[i..];
    var t := TrailingSpaces(l);
    var r := l[..|l| - t];
    assert r == TrimSpace(s);
    if r != [] {
      LeadingSpacesSpaces(s);
      TrailingSpacesSpaces(l);
      assert r[0] == l[0] == s[i];
      assert r[|r| - 1] == l[|l| - t - 1];
    }
  }

  /** Trimming twice is trimming once, so the second trim in Open changes
      nothing. */
  lemma TrimSpaceIdempotent(s: string)
    ensures TrimSpace(TrimSpace(s)) == TrimSpace(s)
  {
    var r := TrimSpace(s);
    TrimSpaceCuts(s);
    if r != [] {
      assert LeadingSpaces(r) == 0;
      assert TrailingSpaces(r) == 0;
    }
  }

  /** Text that neither starts nor ends with white space is left as it is. */
  lemma TrimSpaceTrimmed(s: string)
    requires s == [] || (!IsSpace(s[0]) && !IsSpace(s[|s| - 1]))
    ensures TrimSpace(s) == s
  {
    if s != [] {
      assert LeadingSpaces(s) == 0;
      assert TrailingSpaces(s) == 0;
    }
  }

  // ---------------------------------------------------------------
  // parseFileReference

  /** parseFileReference: with a `|` after the first byte, the trimmed text
      before it and the trimmed text up to the next `|`; otherwise the
      whole trimmed text and no description. */
  function ParseFileReference(line: string): (r: (string, string))
  {
    var idx := Index(line, "|");
    if idx > 0 then
      var rest := line[idx + 1..];
      var next := Index(rest, "|");
      (TrimSpace(line[..idx]), TrimSpace(if next < 0 then rest else rest[..next]))
    else
      (TrimSpace(line), "")
  }

  lemma NoPipe(s: string)
    requires '|' !in s
    ensures Index(s, "|") == -1
  {
    forall i | 0 <= i && i + 1 <= |s|
      ensures !OccursAt(s, "|", i)
    {
      assert s[i..i + 1] == [s[i]];
    }
    IndexFirst(s, "|");
  }

  /** The first `|` of `a + b`, when `a` has none and `b` starts with one. */
  lemma FirstPipe(a: string, b: string)
    requires '|' !in a
    requires b != [] && b[0] == '|'
    ensures Index(a + b, "|") == |a|
  {
    var s := a + b;
    assert s[|a|..|a| + 1] == [b[0]];
    assert OccursAt(s, "|", |a|);
    forall i | 0 <= i < |a|
      ensures !OccursAt(s, "|", i)
    {
      assert s[i..i + 1] == [a[i]];
    }
    IndexFirst(s, "|");
  }

  /** The text up to the first `|`, the second field bytes.Split yields. */
  function FirstField(rest: string): string
  {
    var next := Index(rest, "|");
    if next < 0 then rest else rest[..next]
  }

  /** A line splits at its first `|`. */
  lemma SplitAtPipe(name: string, rest: string)
    requires name != [] && '|' !in name
    ensures ParseFileReference(name + "|" + rest) == (TrimSpace(name), TrimSpace(FirstField(rest)))
  {
    var line := name + "|" + rest;
    FirstPipe(name, "|" + rest);
    assert line == name + ("|" + rest);
    assert line[..|name|] == name;
    assert line[|name| + 1..] == rest;
  }

  /** A reference without `|` is the whole link, trimmed, with no description. */
  lemma ReferenceWithoutDescription(name: string)
    requires '|' !in name
    ensures ParseFileReference(name) == (TrimSpace(name), "")
  {
    NoPipe(name);
  }

  /** `name|description` reads back as its two halves, trimmed. */
  lemma ReferenceWithDescription(name: string, desc: string)
    requires name != [] && '|' !in name
    requires '|' !in desc
    ensures ParseFileReference(name + "|" + desc) == (TrimSpace(name), TrimSpace(desc))
  {
    SplitAtPipe(name, desc);
    NoPipe(desc);
  }

  /** Anything after a second `|` is dropped. */
  lemma ReferenceDropsExtra(name: string, desc: string, extra: string)
    requires name != [] && '|' !in name
    requires '|' !in desc
    ensures ParseFileReference(name + "|" + desc + "|" + extra) == (TrimSpace(name), TrimSpace(desc))
  {
    var rest := desc + "|" + extra;
    SplitAtPipe(name, rest);
    assert name + "|" + desc + "|" + extra == name + "|" + rest;
    FirstPipe(desc, "|" + extra);
    assert rest == desc + ("|" + extra);
    assert rest[..|desc|] == desc;
  }

  /** A line opening with `[[` has no `]]` before position 2. */
  lemma NoCloseInOpening(b: string)
    requires HasPrefix(b, StartSeq)
    ensures !OccursAt(b, EndSeq, 0) && !OccursAt(b, EndSeq, 1)
  {
    assert b[0] == b[..2][0] == '[';
    assert b[1] == b[..2][1] == '[';
    assert |b| >= 2 ==> b[0..2] == [b[0], b[1]];
    if |b| >= 3 {
      assert b[1..3] == [b[1], b[2]];
    }
  }

  /** No `]]` at position i, shown from the two characters there. */
  lemma NoCloseAt(s: string, i: nat)
    requires i + 2 <= |s| && (s[i] != ']' || s[i + 1] != ']')
    ensures !OccursAt(s, EndSeq, i)
  {
    assert s[i..i + 2] == [s[i], s[i + 1]];
  }

  /** A `]]` at position i, shown from the two characters there. */
  lemma CloseAt(s: string, i: nat)
    requires i + 2 <= |s| && s[i] == ']' && s[i + 1] == ']'
    ensures OccursAt(s, EndSeq, i)
  {
    assert s[i..i + 2] == [s[i], s[i + 1]];
  }

  // ---------------------------------------------------------------
  // The inline parser on one peeked line

  /** What the inline parser makes of the line it peeks. */
  datatype LinkScan =
    | NoLink                                        // returns nil
    | InvalidSyntax                                 // a FileNode with ErrInvalidSyntax, no advance
    | Link(advance: nat, reference: string)        // the trimmed text between the brackets
    | SlicePanic                                    // b[2:end] with end < 2

  /** FileNodeParser.Parse as written, on the line it peeks: goldmark calls
      it at any `[`, since each byte of a trigger triggers alone, but
      Parse assumes the line starts with `[[`. */
  function InlineScanAsWritten(b: string): (r: LinkScan)
    ensures var end := Index(b, EndSeq);
      (r == NoLink <==> end < 0) && (r == SlicePanic <==> 0 <= end < |StartSeq|) &&
      (r.Link? ==> r.advance == end + |EndSeq| <= |b|)
  {
    var end := Index(b, EndSeq);
    if end < 0 then NoLink
    else if end < |StartSeq| then SlicePanic
    else if Utf8Length(b) < FileNameMinLength then InvalidSyntax
    else
      Link(end + |EndSeq|, TrimSpace(b[|StartSeq|..end]))
  }

  /** FileNodeParser.Parse as evidently intended: a line that does not open
      with `[[` is not a link. */
  function InlineScan(b: string): (r: LinkScan)
    ensures r != SlicePanic
    ensures r.Link? ==> HasPrefix(b, StartSeq) && r.advance <= |b|
    ensures HasPrefix(b, StartSeq) ==> r == InlineScanAsWritten(b)
  {
    if !HasPrefix(b, StartSeq) then NoLink
    else
      NoCloseInOpening(b);
      IndexFirst(b, EndSeq);
      InlineScanAsWritten(b)
  }

  /** The first `]]` of a line whose text before it holds no `]`. */
  lemma FirstClose(a: string, tail: string)
    requires ']' !in a
    ensures Index(a + EndSeq + tail, EndSeq) == |a|
  {
    var b := a + EndSeq + tail;
    CloseAt(b, |a|);
    forall i | 0 <= i < |a|
      ensures !OccursAt(b, EndSeq, i)
    {
      assert b[i] == a[i];
      NoCloseAt(b, i);
    }
    IndexFirst(b, EndSeq);
  }

  /** A single `[` followed by `]]` makes the as-written parser slice out of
      range, and a plain bracket earlier on the line swallows the text up
      to a later `]]`; the corrected parser leaves both alone. */
  lemma InlineScanAsWrittenMisreads()
    ensures InlineScanAsWritten("[" + EndSeq) == SlicePanic
    ensures InlineScanAsWritten("[a [[b" + EndSeq).Link?
    ensures InlineScan("[" + EndSeq) == NoLink && InlineScan("[a [[b" + EndSeq) == NoLink
  {
    FirstClose("[", "");
    assert "[" + EndSeq + "" == "[" + EndSeq;
    assert ("[" + EndSeq)[..2][1] == ']';
    FirstClose("[a [[b", "");
    assert "[a [[b" + EndSeq + "" == "[a [[b" + EndSeq;
    assert ("[a [[b" + EndSeq)[..2][1] == 'a';
  }

  /** In `[[inner]]tail`, with no `]` inside, the first `]]` closes the link. */
  lemma LinkClose(inner: string, tail: string)
    requires inner != [] && ']' !in inner
    ensures var b := "[[" + inner + "]]" + tail;
      HasPrefix(b, StartSeq) && Index(b, EndSeq) == |inner| + 2 && b[2..|inner| + 2] == inner
  {
    var b := "[[" + inner + "]]" + tail;
    assert b[..2] == StartSeq;
    FirstClose("[[" + inner, tail);
    assert b[2..|inner| + 2] == inner;
  }

  /** `[[name]]` and `[[name|desc]]` at the start of a line are links to
      that name with that description, consuming exactly the link. */
  lemma InlineScanLink(name: string, desc: string, tail: string)
    requires name != [] && !IsSpace(name[0]) && !IsSpace(name[|name| - 1])
    requires '|' !in name && ']' !in name
    requires '|' !in desc && ']' !in desc
    requires desc == [] || (!IsSpace(desc[0]) && !IsSpace(desc[|desc| - 1]))
    ensures var inner := if desc == [] then name else name + "|" + desc;
      |"[[" + inner + "]]"| >= FileNameMinLength &&
      InlineScan("[[" + inner + "]]" + tail) == Link(|inner| + 4, inner) &&
      ParseFileReference(inner) == (name, desc)
  {
    var inner := if desc == [] then name else name + "|" + desc;
    ReferenceOf(name, desc);
    OpeningLink(inner, tail);
  }

  /** A trimmed `[[inner]]` at the start of a line is a link whose
      reference is `inner`. */
  lemma OpeningLink(inner: string, tail: string)
    requires inner != [] && ']' !in inner && TrimSpace(inner) == inner
    ensures InlineScan("[[" + inner + "]]" + tail) == Link(|inner| + 4, inner)
  {
    LinkClose(inner, tail);
    var b := "[[" + inner + "]]" + tail;
    assert TrimSpace(b[2..|inner| + 2]) == inner;
  }

  /** The text of a link to `name` with `desc` reads back as the two. */
  lemma ReferenceOf(name: string, desc: string)
    requires name != [] && !IsSpace(name[0]) && !IsSpace(name[|name| - 1])
    requires '|' !in name && ']' !in name
    requires '|' !in desc && ']' !in desc
    requires desc == [] || (!IsSpace(desc[0]) && !IsSpace(desc[|desc| - 1]))
    ensures var inner := if desc == [] then name else name + "|" + desc;
      inner != [] && ']' !in inner &&
      TrimSpace(inner) == inner && ParseFileReference(inner) == (name, desc)
  {
    TrimSpaceTrimmed(name);
    if desc == [] {
      ReferenceWithoutDescription(name);
    } else {
      ReferencePair(name, desc);
    }
  }

  lemma ReferencePair(name: string, desc: string)
    requires name != [] && !IsSpace(name[0]) && TrimSpace(name) == name
    requires '|' !in name && ']' !in name
    requires '|' !in desc && ']' !in desc
    requires desc != [] && !IsSpace(desc[0]) && !IsSpace(desc[|desc| - 1])
    ensures var inner := name + "|" + desc;
      ']' !in inner && TrimSpace(inner) == inner && ParseFileReference(inner) == (name, desc)
  {
    var inner := name + "|" + desc;
    TrimSpaceTrimmed(desc);
    ReferenceWithDescription(name, desc);
    assert inner[0] == name[0];
    assert inner[|inner| - 1] == desc[|desc| - 1];
    TrimSpaceTrimmed(inner);
  }

  // ---------------------------------------------------------------
  // The block parser on one peeked line

  /** FilesBlockParser.Open as written: a files block only when the trimmed
      text between the opening and the first `]]` is FILES; like the inline
      parser it assumes the line opens with `[[`. */
  function FilesScanAsWritten(b: string): Result<bool>
  {
    var end := Index(b, EndSeq);
    if end < 0 then Ok(false)
    else if end < |StartSeq| then Err(Panic("slice bounds out of range"))
    else
      var line := TrimSpace(b[|StartSeq|..end]);
      if Utf8Length(line) < FilesLength then Ok(false)
      else Ok(TrimSpace(line) == WordFiles)
  }

  /** FilesBlockParser.Open as evidently intended. */
  function FilesScan(b: string): (r: bool)
    ensures r <==> HasPrefix(b, StartSeq) && Index(b, EndSeq) >= |StartSeq| &&
                   TrimSpace(b[|StartSeq|..Index(b, EndSeq)]) == WordFiles
    ensures HasPrefix(b, StartSeq) ==> FilesScanAsWritten(b) == Ok(r)
  {
    if !HasPrefix(b, StartSeq) then false
    else
      NoCloseInOpening(b);
      IndexFirst(b, EndSeq);
      var end := Index(b, EndSeq);
      if end < 0 then FilesScanAsWritten(b).value
      else
        TrimSpaceIdempotent(b[|StartSeq|..end]);
        FilesScanAsWritten(b).value
  }

  /** The as-written block parser also misreads a line opening with one
      `[`: `[]]` slices out of range and `[ FILES]]` is taken for a files
      block, which the corrected parser refuses. */
  lemma FilesScanAsWrittenMisreads()
    ensures FilesScanAsWritten("[" + EndSeq).Err?
    ensures FilesScanAsWritten("[ " + WordFiles + EndSeq) == Ok(true) && !FilesScan("[ " + WordFiles + EndSeq)
  {
    FirstClose("[", "");
    assert "[" + EndSeq + "" == "[" + EndSeq;
    var s := "[ " + WordFiles + EndSeq;
    FirstClose("[ " + WordFiles, "");
    assert "[ " + WordFiles + EndSeq + "" == s;
    assert s[2..7] == WordFiles;
    TrimSpaceTrimmed(WordFiles);
    assert s[..2][1] == ' ';
  }

  /** White space beyond ASCII is trimmed: `[[NBSP a.txt]]` links to
      `a.txt`. */
  lemma NbspLink()
    ensures InlineScan("[[\U{00A0}a.txt]]") == Link(10, "a.txt")
  {
    var a, b := "\U{00A0}a.txt", "[[\U{00A0}a.txt]]";
    assert HasPrefix(b, StartSeq) && Index(b, EndSeq) == 8 && b[2..8] == a by {
      LinkClose(a, "");
      assert "[[" + a + "]]" + "" == b;
    }
    assert TrimSpace(a) == "a.txt" by {
      assert LeadingSpaces(a) == 1 && a[1..] == "a.txt";
      TrimSpaceTrimmed("a.txt");
    }
    assert Utf8Length(b) >= FileNameMinLength;
  }

  /** `[[NBSP FILES]]` opens a files block. */
  lemma NbspFiles()
    ensures FilesScan("[[\U{00A0}" + WordFiles + "]]")
  {
    var w := "\U{00A0}" + WordFiles;
    LinkClose(w, "");
    assert "[[" + w + "]]" + "" == "[[\U{00A0}" + WordFiles + "]]";
    assert LeadingSpaces(w) == 1 && w[1..] == WordFiles;
    assert TrailingSpaces(WordFiles) == 0;
  }

  /** Lengths are UTF-8 bytes: the four-character, five-byte line `[é]]`
      passes the length test of the as-written parser. */
  lemma ShortUnicodeLine()
    ensures Utf8Length("[\U{00E9}]]") == FileNameMinLength
    ensures InlineScanAsWritten("[\U{00E9}]]").Link?
  {
    FirstClose("[\U{00E9}", "");
    assert "[\U{00E9}" + EndSeq + "" == "[\U{00E9}]]";
  }

  // ---------------------------------------------------------------
  // The nodes

  /** The resolvers the parser context may hold. */
  datatype ParserContext = ParserContext(templates: Option<TemplateResolver>, files: Option<FileResolver>)

  function ResolverFrame(pc: ParserContext): set<object>
  {
    if pc.files.Some? then {pc.files.value} else {}
  }

  /** The file a lookup finds, in a resolver in this state. */
  function Found(files: seq<File>, index: Option<map<string, nat>>, name: string): (r: Result<File>)
    ensures r.Ok? ==> r.value in files && r.value.name == name
  {
    match Resolve(files, index, name)
    case Ok(k) => Ok(files[k])
    case Err(e) => Err(e)
  }

  /** The node makeNode builds, checking in order: the template resolver,
      the file resolver (absent: `found` is None), the lookup, the FILE
      template, its execution. A description is given to a copy of the file. */
  function FileNodeOf(filename: string, description: string, tr: Option<TemplateResolver>, found: Option<Result<File>>): (n: Node)
    ensures n.FileNode? && n.filename == filename
    ensures n.error.Some? ==> n.html == ""
    ensures n.error.None? <==>
              tr.Some? && found.Some? && found.value.Ok? && tr.value.fileTemplate.Some? &&
              tr.value.fileTemplate.value(OneFile(DescribedCopy(found.value.value, description))).Ok?
  {
    if tr.None? then FileNode(filename, "", Some(Message("no template resolver")))
    else if found.None? then FileNode(filename, "", Some(Message("no file resolver")))
    else if found.value.Err? then FileNode(filename, "", Some(Wrapped("cannot get file " + filename, found.value.error)))
    else
      var file := DescribedCopy(found.value.value, description);
      if tr.value.fileTemplate.None? then FileNode(filename, "", Some(Message("cannot get template")))
      else match tr.value.fileTemplate.value(OneFile(file))
        case Err(e) => FileNode(filename, "", Some(Wrapped("cannot execute template", e)))
        case Ok(html) => FileNode(filename, html, None)
  }

  /** The file as a link shows it: a non-empty description replaces its own. */
  function DescribedCopy(f: File, description: string): (g: File)
    ensures g == f.(description := g.description)
    ensures g.description == if description != "" then description else f.description
  {
    if description != "" then f.(description := description) else f
  }

  /** The checks come in order: a missing template resolver wins over
      everything, a missing file resolver over the lookup, and a failed
      lookup over the template. */
  lemma FileNodeCheckOrder(filename: string, description: string, tr: Option<TemplateResolver>, found: Option<Result<File>>)
    ensures tr.None? ==> FileNodeOf(filename, description, tr, found).error == Some(Message("no template resolver"))
    ensures tr.Some? && found.None? ==> FileNodeOf(filename, description, tr, found).error == Some(Message("no file resolver"))
    ensures tr.Some? && found.Some? && found.value.Err? ==>
              FileNodeOf(filename, description, tr, found).error == Some(Wrapped("cannot get file " + filename, found.value.error))
    ensures tr.Some? && found.Some? && found.value.Ok? && tr.value.fileTemplate.None? ==>
              FileNodeOf(filename, description, tr, found).error == Some(Message("cannot get template"))
  {
  }

  /** The node FilesBlockParser.makeNode builds. */
  function FilesNodeOf(tr: Option<TemplateResolver>, files: Option<seq<File>>): (n: Node)
    ensures n.FilesNode?
    ensures n.error.Some? ==> n.html == ""
    ensures n.error.None? <==>
              tr.Some? && files.Some? && tr.value.filesTemplate.Some? &&
              tr.value.filesTemplate.value(FileList(files.value)).Ok?
    ensures n.error.None? ==> n.html == tr.value.filesTemplate.value(FileList(files.value)).value
  {
    if tr.None? then FilesNode("", Some(Message("no template resolver")))
    else if files.None? then FilesNode("", Some(Message("no file resolver")))
    else if tr.value.filesTemplate.None? then FilesNode("", Some(Message("cannot get template")))
    else match tr.value.filesTemplate.value(FileList(files.value))
      case Err(e) => FilesNode("", Some(Wrapped("cannot execute files template", e)))
      case Ok(html) => FilesNode(html, None)
  }

  /** The first index of `s` at or after `i` just past a newline, or |s|. */
  function LineEnd(s: string, i: nat): (e: nat)
    requires i <= |s|
    decreases |s| - i
    ensures i <= e <= |s|
    ensures forall k :: i <= k < e - 1 ==> s[k] != '\n'
    ensures e < |s| ==> e > i && s[e - 1] == '\n'
  {
    if i == |s| then i
    else if s[i] == '\n' then i + 1
    else LineEnd(s, i + 1)
  }

  /** text.Reader: a source text and the offset reached. */
  class TextReader {
    const source: string
    var pos: nat

    predicate Valid()
      reads this
    {
      pos <= |source|
    }

    constructor(source: string)
      ensures this.source == source && pos == 0 && Valid()
    {
      this.source := source;
      pos := 0;
    }

    /** PeekLine: the rest of the current line, its newline included. */
    function PeekLine(): (line: string)
      requires Valid()
      reads this
      ensures pos + |line| <= |source| && line == source[pos..pos + |line|]
    {
      source[pos..LineEnd(source, pos)]
    }

    /** Advance, never past the end of the text. */
    method Advance(n: nat)
      requires Valid()
      modifies this
      ensures Valid()
      ensures pos == if old(pos) + n <= |source| then old(pos) + n else |source|
    {
      pos := if pos + n <= |source| then pos + n else |source|;
    }
  }

  /** FileNodeParser.makeNode: the node of FileNodeOf; the lookup goes
      through the resolver, which may build its index, but the resolver's
      files are never changed. */
  method MakeFileNode(filename: string, description: string, pc: ParserContext) returns (node: Node)
    modifies ResolverFrame(pc)
    ensures node == FileNodeOf(filename, description, pc.templates,
                               if pc.files.None? then None
                               else Some(Found(old(pc.files.value.files), old(pc.files.value.index), filename)))
    ensures pc.files.Some? ==> pc.files.value.files == old(pc.files.value.files)
  {
    if pc.templates.None? {
      return FileNode(filename, "", Some(Message("no template resolver")));
    }
    if pc.files.None? {
      return FileNode(filename, "", Some(Message("no file resolver")));
    }
    var fr := pc.files.value;
    var pos := fr.GetFile(filename);
    if pos.Err? {
      return FileNode(filename, "", Some(Wrapped("cannot get file " + filename, pos.error)));
    }
    var file := fr.files[pos.value];
    if description != "" {
      file := file.(description := description);
    }
    var tmpl := pc.templates.value.fileTemplate;
    if tmpl.None? {
      return FileNode(filename, "", Some(Message("cannot get template")));
    }
    var html := tmpl.value(OneFile(file));
    if html.Err? {
      return FileNode(filename, "", Some(Wrapped("cannot execute template", html.error)));
    }
    return FileNode(filename, html.value, None);
  }

  /** The panic Go raises for a slice whose end lies before its start. */
  const SliceOutOfRange: Error := Panic("slice bounds out of range")

  /** FileNodeParser.Parse as written, on a line it is called at: a line
      whose first `]]` starts before its third character panics with
      nothing consumed; otherwise as ParseScanned over the as-written scan,
      so a plain `[` before a later `]]` is taken for a link. */
  method Parse(reader: TextReader, pc: ParserContext) returns (r: Result<Option<Node>>)
    requires reader.Valid()
    modifies reader, ResolverFrame(pc)
    ensures reader.Valid()
    ensures var scan := InlineScanAsWritten(old(reader.PeekLine()));
      (scan == SlicePanic <==> r == Err(SliceOutOfRange)) &&
      (scan == SlicePanic ==> reader.pos == old(reader.pos)) &&
      (r.Ok? ==> ScannedNode(scan, r.value, reader.pos, old(reader.pos), pc.templates,
                             if pc.files.None? then None else Some((old(pc.files.value.files), old(pc.files.value.index)))))
    ensures pc.files.Some? ==> pc.files.value.files == old(pc.files.value.files)
  {
    var b := reader.PeekLine();
    var scan := InlineScanAsWritten(b);
    if scan.SlicePanic? {
      return Err(SliceOutOfRange);
    }
    var node := ParseScanned(reader, pc, scan);
    return Ok(node);
  }

  /** FileNodeParser.Parse as evidently intended, with the `[[` check: it
      never panics, and only a line that opens with `[[` is a link. */
  method ParseCorrected(reader: TextReader, pc: ParserContext) returns (node: Option<Node>)
    requires reader.Valid()
    modifies reader, ResolverFrame(pc)
    ensures reader.Valid()
    ensures ScannedNode(InlineScan(old(reader.PeekLine())), node, reader.pos, old(reader.pos), pc.templates,
                        if pc.files.None? then None else Some((old(pc.files.value.files), old(pc.files.value.index))))
    ensures pc.files.Some? ==> pc.files.value.files == old(pc.files.value.files)
  {
    var b := reader.PeekLine();
    var scan := InlineScan(b);
    node := ParseScanned(reader, pc, scan);
  }

  /** What Parse does with a scan of the line: no link leaves the reader
      where it was; a short line is an invalid-syntax node and does not
      advance; a link advances past its `]]` and becomes the file node of
      its reference, looked up in the resolver's files `found`. */
  ghost predicate ScannedNode(scan: LinkScan, node: Option<Node>, pos: nat, oldPos: nat, tr: Option<TemplateResolver>,
                              resolved: Option<(seq<File>, Option<map<string, nat>>)>)
  {
    match scan
    case NoLink => node.None? && pos == oldPos
    case InvalidSyntax => node == Some(FileNode("", "", Some(Message("invalid syntax")))) && pos == oldPos
    case Link(advance, reference) =>
      var (filename, description) := ParseFileReference(reference);
      pos == oldPos + advance &&
      node == Some(FileNodeOf(filename, description, tr,
                              if resolved.None? then None
                              else Some(Found(resolved.value.0, resolved.value.1, filename))))
    case SlicePanic => false
  }

  /** The rest of Parse once the line is scanned without a panic. */
  method ParseScanned(reader: TextReader, pc: ParserContext, scan: LinkScan) returns (node: Option<Node>)
    requires reader.Valid() && scan != SlicePanic
    requires scan.Link? ==> reader.pos + scan.advance <= |reader.source|
    modifies reader, ResolverFrame(pc)
    ensures reader.Valid()
    ensures ScannedNode(scan, node, reader.pos, old(reader.pos), pc.templates,
                        if pc.files.None? then None else Some((old(pc.files.value.files), old(pc.files.value.index))))
    ensures pc.files.Some? ==> pc.files.value.files == old(pc.files.value.files)
  {
    if scan.NoLink? {
      return None;
    }
    if scan.InvalidSyntax? {
      return Some(FileNode("", "", Some(Message("invalid syntax"))));
    }
    var n := ParseLink(reader, pc, scan.advance, scan.reference);
    return Some(n);
  }

  /** The link branch of FileNodeParser.Parse: past the link, then the node
      of the reference it holds. */
  method ParseLink(reader: TextReader, pc: ParserContext, advance: nat, reference: string) returns (node: Node)
    requires reader.Valid() && reader.pos + advance <= |reader.source|
    modifies reader, ResolverFrame(pc)
    ensures reader.Valid() && reader.pos == old(reader.pos) + advance
    ensures var (filename, description) := ParseFileReference(reference);
      node == FileNodeOf(filename, description, pc.templates,
                         if pc.files.None? then None
                         else Some(Found(old(pc.files.value.files), old(pc.files.value.index), filename)))
    ensures pc.files.Some? ==> pc.files.value.files == old(pc.files.value.files)
  {
    reader.Advance(advance);
    var (filename, description) := ParseFileReference(reference);
    node := MakeFileNode(filename, description, pc);
  }

  /** FilesBlockParser.makeNode. */
  method MakeFilesNode(pc: ParserContext) returns (node: Node)
    ensures node == FilesNodeOf(pc.templates, if pc.files.None? then None else Some(pc.files.value.files))
  {
    if pc.templates.None? {
      return FilesNode("", Some(Message("no template resolver")));
    }
    if pc.files.None? {
      return FilesNode("", Some(Message("no file resolver")));
    }
    var files := pc.files.value.GetFiles();
    var tmpl := pc.templates.value.filesTemplate;
    if tmpl.None? {
      return FilesNode("", Some(Message("cannot get template")));
    }
    var html := tmpl.value(FileList(files));
    if html.Err? {
      return FilesNode("", Some(Wrapped("cannot execute files template", html.error)));
    }
    return FilesNode(html.value, None);
  }

  /** FilesBlockParser.Open as written: a line whose first `]]` starts
      before its third character panics with nothing consumed; otherwise
      the line is a files block when the as-written scan says so, which
      includes a line opening with a single `[`. */
  method Open(reader: TextReader, pc: ParserContext) returns (r: Result<Option<Node>>, state: BlockState)
    requires reader.Valid()
    modifies reader
    ensures reader.Valid() && state == NoChildren
    ensures FilesScanAsWritten(old(reader.PeekLine())).Err? <==> r == Err(SliceOutOfRange)
    ensures r.Err? ==> reader.pos == old(reader.pos)
    ensures r.Ok? ==> (r.value.Some? <==> FilesScanAsWritten(old(reader.PeekLine())) == Ok(true))
    ensures r.Ok? && r.value.Some? ==>
              reader.pos == old(reader.pos) + |old(reader.PeekLine())| &&
              r.value.value == FilesNodeOf(pc.templates, if pc.files.None? then None else Some(pc.files.value.files))
    ensures r.Ok? && r.value.None? ==> reader.pos == old(reader.pos)
  {
    var b := reader.PeekLine();
    var scan := FilesScanAsWritten(b);
    if scan.Err? {
      return Err(SliceOutOfRange), NoChildren;
    }
    var node := OpenScanned(reader, pc, scan.value);
    return Ok(node), NoChildren;
  }

  /** FilesBlockParser.Open as evidently intended, with the `[[` check: a
      files block consumes its whole line; anything else leaves the reader
      where it was. */
  method OpenCorrected(reader: TextReader, pc: ParserContext) returns (node: Option<Node>, state: BlockState)
    requires reader.Valid()
    modifies reader
    ensures reader.Valid() && state == NoChildren
    ensures node.Some? <==> FilesScan(old(reader.PeekLine()))
    ensures node.Some? ==>
              reader.pos == old(reader.pos) + |old(reader.PeekLine())| &&
              node.value == FilesNodeOf(pc.templates, if pc.files.None? then None else Some(pc.files.value.files))
    ensures node.None? ==> reader.pos == old(reader.pos)
  {
    var b := reader.PeekLine();
    node := OpenScanned(reader, pc, FilesScan(b));
    state := NoChildren;
  }

  /** The rest of Open once the line is scanned: a files block consumes the
      whole line and becomes the files node. */
  method OpenScanned(reader: TextReader, pc: ParserContext, isFiles: bool) returns (node: Option<Node>)
    requires reader.Valid()
    modifies reader
    ensures reader.Valid()
    ensures node.Some? <==> isFiles
    ensures node.Some? ==>
              reader.pos == old(reader.pos) + |old(reader.PeekLine())| &&
              node.value == FilesNodeOf(pc.templates, if pc.files.None? then None else Some(pc.files.value.files))
    ensures node.None? ==> reader.pos == old(reader.pos)
  {
    if isFiles {
      var b := reader.PeekLine();
      reader.Advance(|b|);
      var n := MakeFilesNode(pc);
      return Some(n);
    }
    return None;
  }

  /** FilesBlockParser.Continue: a files block is one line long. */
  function Continue(node: Node): (s: BlockState)
    ensures s == Close
  {
    Close
  }
}
