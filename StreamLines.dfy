/** The text-level logic of the chat page's streaming reader: splitting the
    received text on "\n" the way `String.prototype.split` does, keeping the
    trailing partial line, trimming with `String.prototype.trim`, and turning
    each complete `data: ` line into the text fragment it contributes to the
    assistant's reply. */
module StreamLines {
  import opened Common

  /** `JSON.parse(data)` followed by `parsed.choices?.[0]?.delta?.content`:
      None when parsing throws or the field is missing, otherwise the field's
      text (a falsy field is the empty string). */
  type Extractor = string -> Option<string>

  const DataPrefix: string := "data: "
  const DoneToken: string := "[DONE]"

  // ---------------------------------------------------------------------
  // Splitting on newlines

  ghost predicate NoNewline(s: string)
  {
    forall i :: 0 <= i < |s| ==> s[i] != '\n'
  }

  ghost predicate AllNoNewline(ls: seq<string>)
  {
    forall i :: 0 <= i < |ls| ==> NoNewline(ls[i])
  }

  /** `s.split("\n")`: the maximal newline-free pieces between separators;
      there is always at least one piece. */
  function Split(s: string): (r: seq<string>)
    ensures |r| >= 1
    ensures AllNoNewline(r)
  {
    if |s| == 0 then [""]
    else if s[0] == '\n' then [""] + Split(s[1..])
    else
      var t := Split(s[1..]);
      [[s[0]] + t[0]] + t[1..]
  }

  /** `lines.join("\n")`, the inverse of Split. */
  function Join(ls: seq<string>): string
    requires |ls| >= 1
  {
    if |ls| == 1 then ls[0] else ls[0] + "\n" + Join(ls[1..])
  }

  /** Each line followed by its newline: the text that the complete lines
      of a split occupied. */
  function Terminated(ls: seq<string>): string
  {
    if |ls| == 0 then "" else ls[0] + "\n" + Terminated(ls[1..])
  }

  /** The lines `split` yields before the last one: the complete lines. */
  function CompleteLines(s: string): seq<string>
  {
    var ls := Split(s); ls[..|ls| - 1]
  }

  /** `lines.pop() || ""`: the text after the last newline, kept for the
      next chunk. Its `|| ""` never changes the value, since pop of a
      non-empty array of strings yields a string. */
  function LastLine(s: string): string
  {
    var ls := Split(s); ls[|ls| - 1]
  }

  /** Splitting and joining again gives back the text. */
  lemma {:induction false} JoinSplit(s: string)
    ensures Join(Split(s)) == s
  {
    if |s| == 0 {
    } else if s[0] == '\n' {
      JoinSplit(s[1..]);
    } else {
      var t := Split(s[1..]);
      JoinSplit(s[1..]);
      var r := [[s[0]] + t[0]] + t[1..];
      assert Split(s) == r;
      if |t| > 1 {
        assert r[1..] == t[1..];
        assert Join(t) == t[0] + "\n" + Join(t[1..]);
      }
      assert s == [s[0]] + s[1..];
    }
  }

  /** A newline-free text is a single piece. */
  lemma {:induction false} SplitNoNewline(s: string)
    requires NoNewline(s)
    ensures Split(s) == [s]
  {
    if |s| > 0 {
      assert NoNewline(s[1..]) by {
        forall i | 0 <= i < |s[1..]| ensures s[1..][i] != '\n' {
          assert s[1..][i] == s[i + 1];
        }
      }
      SplitNoNewline(s[1..]);
      assert [s[0]] + s[1..] == s;
    }
  }

  /** A newline-free prefix followed by a newline becomes the first piece. */
  lemma {:induction false} SplitAfterLine(x: string, rest: string)
    requires NoNewline(x)
    ensures Split(x + "\n" + rest) == [x] + Split(rest)
  {
    var s := x + "\n" + rest;
    if |x| == 0 {
      assert s == "\n" + rest;
      assert s[1..] == rest;
    } else {
      assert s[0] == x[0];
      assert s[1..] == x[1..] + "\n" + rest;
      assert NoNewline(x[1..]) by {
        forall i | 0 <= i < |x[1..]| ensures x[1..][i] != '\n' {
          assert x[1..][i] == x[i + 1];
        }
      }
      SplitAfterLine(x[1..], rest);
      assert [x[0]] + x[1..] == x;
    }
  }

  /** Joining newline-free pieces and splitting again gives back the pieces. */
  lemma {:induction false} SplitJoin(ls: seq<string>)
    requires |ls| >= 1 && AllNoNewline(ls)
    ensures Split(Join(ls)) == ls
  {
    if |ls| == 1 {
      SplitNoNewline(ls[0]);
    } else {
      assert AllNoNewline(ls[1..]) by {
        forall i | 0 <= i < |ls[1..]| ensures NoNewline(ls[1..][i]) {
          assert ls[1..][i] == ls[i + 1];
        }
      }
      SplitJoin(ls[1..]);
      assert NoNewline(ls[0]);
      SplitAfterLine(ls[0], Join(ls[1..]));
      assert [ls[0]] + ls[1..] == ls;
    }
  }

  /** Join is the terminated complete lines followed by the last piece. */
  lemma {:induction false} JoinIsTerminated(ls: seq<string>)
    requires |ls| >= 1
    ensures Join(ls) == Terminated(ls[..|ls| - 1]) + ls[|ls| - 1]
  {
    if |ls| > 1 {
      JoinIsTerminated(ls[1..]);
      assert ls[1..][..|ls[1..]| - 1] == ls[..|ls| - 1][1..];
    }
  }

  /** Terminated distributes over concatenation. */
  lemma {:induction false} TerminatedAppend(a: seq<string>, b: seq<string>)
    ensures Terminated(a + b) == Terminated(a) + Terminated(b)
  {
    if |a| == 0 {
      assert a + b == b;
    } else {
      TerminatedAppend(a[1..], b);
      assert (a + b)[0] == a[0];
      assert (a + b)[1..] == a[1..] + b;
      calc {
        Terminated(a + b);
        a[0] + "\n" + Terminated(a[1..] + b);
        a[0] + "\n" + (Terminated(a[1..]) + Terminated(b));
        (a[0] + "\n" + Terminated(a[1..])) + Terminated(b);
      }
    }
  }

  /** No text is lost: the complete lines, each with its newline, followed
      by the kept partial line, are exactly the text that was split. */
  lemma TextConserved(s: string)
    ensures Terminated(CompleteLines(s)) + LastLine(s) == s
    ensures NoNewline(LastLine(s)) && AllNoNewline(CompleteLines(s))
  {
    JoinSplit(s);
    JoinIsTerminated(Split(s));
  }

  /** The converse: any way of writing s as newline-terminated, newline-free
      lines followed by a newline-free rest is the split of s. */
  lemma LinesDetermined(ls: seq<string>, rest: string, s: string)
    requires AllNoNewline(ls) && NoNewline(rest)
    requires Terminated(ls) + rest == s
    ensures CompleteLines(s) == ls && LastLine(s) == rest
  {
    var all := ls + [rest];
    assert all[..|all| - 1] == ls;
    assert AllNoNewline(all) by {
      forall i | 0 <= i < |all| ensures NoNewline(all[i]) {
        if i < |ls| { assert all[i] == ls[i]; }
      }
    }
    JoinIsTerminated(all);
    SplitJoin(all);
  }

  /** Carrying the partial line over to the next chunk loses nothing: the
      complete lines of s, then those of (partial line of s) + t, are the
      complete lines of s + t, and the partial lines agree. */
  lemma CarryOver(s: string, t: string)
    ensures CompleteLines(s) + CompleteLines(LastLine(s) + t) == CompleteLines(s + t)
    ensures LastLine(LastLine(s) + t) == LastLine(s + t)
  {
    var l1, b := CompleteLines(s), LastLine(s);
    var l2, b2 := CompleteLines(b + t), LastLine(b + t);
    TextConserved(s);
    TextConserved(b + t);
    TerminatedAppend(l1, l2);
    CarriedText(Terminated(l1), b, t, Terminated(l2), b2);
    NoNewlineAppend(l1, l2);
    LinesDetermined(l1 + l2, b2, s + t);
  }

  lemma CarriedText(head: string, b: string, t: string, mid: string, b2: string)
    requires mid + b2 == b + t
    ensures head + mid + b2 == (head + b) + t
  {
    assert head + mid + b2 == head + (mid + b2);
    assert (head + b) + t == head + (b + t);
  }

  lemma NoNewlineAppend(l1: seq<string>, l2: seq<string>)
    requires AllNoNewline(l1) && AllNoNewline(l2)
    ensures AllNoNewline(l1 + l2)
  {
    forall i | 0 <= i < |l1 + l2| ensures NoNewline((l1 + l2)[i]) {
      if i < |l1| { assert (l1 + l2)[i] == l1[i]; } else { assert (l1 + l2)[i] == l2[i - |l1|]; }
    }
  }

  /** A trailing text without newline is never a complete line: it only
      extends the partial line. */
  lemma PartialTailIgnored(s: string, tail: string)
    requires NoNewline(tail)
    ensures CompleteLines(s + tail) == CompleteLines(s)
    ensures LastLine(s + tail) == LastLine(s) + tail
  {
    TextConserved(s);
    var l, b := CompleteLines(s), LastLine(s);
    assert Terminated(l) + (b + tail) == s + tail;
    assert NoNewline(b + tail) by {
      forall i | 0 <= i < |b + tail| ensures (b + tail)[i] != '\n' {
        if i < |b| { assert (b + tail)[i] == b[i]; } else { assert (b + tail)[i] == tail[i - |b|]; }
      }
    }
    LinesDetermined(l, b + tail, s + tail);
  }

  // ---------------------------------------------------------------------
  // Chunked reading

  /** The pieces of text in order, joined with nothing between them: the
      received text of a sequence of decoded chunks, or the reply of a
      sequence of fragments. */
  function Concat(pieces: seq<string>): string
  {
    if |pieces| == 0 then "" else Concat(pieces[..|pieces| - 1]) + pieces[|pieces| - 1]
  }

  lemma {:induction false} ConcatAppend(xs: seq<string>, ys: seq<string>)
    ensures Concat(xs + ys) == Concat(xs) + Concat(ys)
  {
    if |ys| == 0 {
      assert xs + ys == xs;
    } else {
      ConcatAppend(xs, ys[..|ys| - 1]);
      assert (xs + ys)[..|xs + ys| - 1] == xs + ys[..|ys| - 1];
      assert (xs + ys)[|xs + ys| - 1] == ys[|ys| - 1];
    }
  }

  /** The read loop on chunks, chunk by chunk: the complete lines handed to
      the line loop so far, and the buffer left over. */
  function Reassemble(chunks: seq<string>): (string, seq<string>)
  {
    if |chunks| == 0 then ("", [])
    else
      var (buffer, lines) := Reassemble(chunks[..|chunks| - 1]);
      var text := buffer + chunks[|chunks| - 1];
      (LastLine(text), lines + CompleteLines(text))
  }

  /** Whatever the chunking, the read loop has processed exactly the complete
      lines of the text received so far and buffers its last partial line. */
  lemma {:induction false} ReassembleIsSplit(chunks: seq<string>)
    ensures Reassemble(chunks) == (LastLine(Concat(chunks)), CompleteLines(Concat(chunks)))
  {
    if |chunks| == 0 {
      assert Split("") == [""];
    } else {
      var init := chunks[..|chunks| - 1];
      ReassembleIsSplit(init);
      CarryOver(Concat(init), chunks[|chunks| - 1]);
    }
  }

  /** One pass of the read loop keeps the accounting of the stream: if the
      processed lines and the buffer make up the text received and the reply
      is assembled from the processed lines, then after the chunk the same
      holds with the chunk's newly completed lines processed. */
  lemma FeedPreserves(extract: Extractor, processed: seq<string>, received: string, buffer: string, chunk: string)
    requires AllNoNewline(processed) && Terminated(processed) + buffer == received
    ensures AllNoNewline(processed + CompleteLines(buffer + chunk))
    ensures NoNewline(LastLine(buffer + chunk))
    ensures Terminated(processed + CompleteLines(buffer + chunk)) + LastLine(buffer + chunk) == received + chunk
    ensures Assembled(extract, processed + CompleteLines(buffer + chunk))
         == Assembled(extract, processed) + Assembled(extract, CompleteLines(buffer + chunk))
  {
    var text := buffer + chunk;
    var complete := CompleteLines(text);
    TextConserved(text);
    TerminatedAppend(processed, complete);
    NoNewlineAppend(processed, complete);
    AssembledAppend(extract, processed, complete);
    CarriedText(Terminated(processed), buffer, chunk, Terminated(complete), LastLine(text));
  }

  /** Two chunkings of the same text feed the same lines and leave the same buffer. */
  lemma ChunkingIrrelevant(c1: seq<string>, c2: seq<string>)
    requires Concat(c1) == Concat(c2)
    ensures Reassemble(c1) == Reassemble(c2)
  {
    ReassembleIsSplit(c1);
    ReassembleIsSplit(c2);
  }

  // ---------------------------------------------------------------------
  // Trimming

  /** The code points `String.prototype.trim` removes: the ECMAScript
      WhiteSpace and LineTerminator characters. */
  predicate IsTrimmable(c: char)
  {
    c == '\t' || c == '\n' || c == '\U{000B}' || c == '\U{000C}' || c == '\r' || c == ' '
    || c == '\U{00A0}' || c == '\U{1680}' || ('\U{2000}' <= c <= '\U{200A}')
    || c == '\U{2028}' || c == '\U{2029}' || c == '\U{202F}' || c == '\U{205F}'
    || c == '\U{3000}' || c == '\U{FEFF}'
  }

  ghost predicate AllTrimmable(s: string)
  {
    forall i :: 0 <= i < |s| ==> IsTrimmable(s[i])
  }

  /** Drops the leading trimmable characters. */
  function TrimStart(s: string): string
  {
    if |s| > 0 && IsTrimmable(s[0]) then TrimStart(s[1..]) else s
  }

  /** Drops the trailing trimmable characters. */
  function TrimEnd(s: string): string
  {
    if |s| > 0 && IsTrimmable(s[|s| - 1]) then TrimEnd(s[..|s| - 1]) else s
  }

  /** `s.trim()`: s with its trimmable characters removed from both ends. */
  function Trim(s: string): string
  {
    TrimEnd(TrimStart(s))
  }

  /** TrimStart yields a suffix of s, what it drops is all trimmable, and
      the suffix does not start with a trimmable character. */
  lemma {:induction false} TrimStartSpec(s: string)
    ensures |TrimStart(s)| <= |s| && TrimStart(s) == s[|s| - |TrimStart(s)|..]
    ensures AllTrimmable(s[..|s| - |TrimStart(s)|])
    ensures TrimStart(s) == [] || !IsTrimmable(TrimStart(s)[0])
  {
    if |s| > 0 && IsTrimmable(s[0]) {
      TrimStartSpec(s[1..]);
      var r := TrimStart(s[1..]);
      assert s[..|s| - |r|] == [s[0]] + s[1..][..|s[1..]| - |r|];
    }
  }

  /** TrimEnd yields a prefix of s, what it drops is all trimmable, and the
      prefix does not end with a trimmable character. */
  lemma {:induction false} TrimEndSpec(s: string)
    ensures |TrimEnd(s)| <= |s| && TrimEnd(s) == s[..|TrimEnd(s)|]
    ensures AllTrimmable(s[|TrimEnd(s)|..])
    ensures TrimEnd(s) == [] || !IsTrimmable(TrimEnd(s)[|TrimEnd(s)| - 1])
  {
    if |s| > 0 && IsTrimmable(s[|s| - 1]) {
      TrimEndSpec(s[..|s| - 1]);
      var r := TrimEnd(s[..|s| - 1]);
      assert s[|r|..] == s[..|s| - 1][|r|..] + [s[|s| - 1]];
    }
  }

  /** Trim's result neither starts nor ends with a trimmable character. */
  lemma TrimEnds(s: string)
    ensures Trim(s) == [] || (!IsTrimmable(Trim(s)[0]) && !IsTrimmable(Trim(s)[|Trim(s)| - 1]))
  {
    var t := TrimStart(s);
    TrimStartSpec(s);
    TrimEndSpec(t);
    var r := TrimEnd(t);
    assert r != [] ==> r[0] == t[0];
  }

  /** Trim keeps a contiguous part of s: everything before it and after it
      is trimmable. */
  lemma TrimSpec(s: string)
    ensures |Trim(s)| <= |TrimStart(s)| <= |s|
    ensures s[|s| - |TrimStart(s)|..|s| - |TrimStart(s)| + |Trim(s)|] == Trim(s)
    ensures AllTrimmable(s[..|s| - |TrimStart(s)|])
    ensures AllTrimmable(s[|s| - |TrimStart(s)| + |Trim(s)|..])
  {
    var t := TrimStart(s);
    TrimStartSpec(s);
    TrimEndSpec(t);
    var r := TrimEnd(t);
    var k := |s| - |t|;
    assert s[k..k + |r|] == r by {
      assert t == s[k..] && r == t[..|r|];
    }
    assert AllTrimmable(s[k + |r|..]) by {
      assert s[k + |r|..] == t[|r|..];
    }
  }

  /** A text surrounded by trimmable characters trims to itself when it has
      none at its ends. */
  lemma {:induction false} TrimSurrounded(pre: string, x: string, post: string)
    requires AllTrimmable(pre) && AllTrimmable(post)
    requires x == [] || (!IsTrimmable(x[0]) && !IsTrimmable(x[|x| - 1]))
    requires x != [] || post == []
    ensures Trim(pre + x + post) == x
  {
    assert pre + x + post == pre + (x + post);
    assert x + post == [] || !IsTrimmable((x + post)[0]);
    TrimStartSurrounded(pre, x + post);
    TrimEndAfter(x, post);
  }

  lemma {:induction false} TrimStartSurrounded(pre: string, rest: string)
    requires AllTrimmable(pre)
    requires rest == [] || !IsTrimmable(rest[0])
    ensures TrimStart(pre + rest) == rest
  {
    if |pre| > 0 {
      assert (pre + rest)[1..] == pre[1..] + rest;
      assert AllTrimmable(pre[1..]) by {
        forall i | 0 <= i < |pre[1..]| ensures IsTrimmable(pre[1..][i]) {
          assert pre[1..][i] == pre[i + 1];
        }
      }
      TrimStartSurrounded(pre[1..], rest);
    } else {
      assert pre + rest == rest;
    }
  }

  lemma {:induction false} TrimEndAfter(x: string, post: string)
    requires AllTrimmable(post)
    requires x == [] || !IsTrimmable(x[|x| - 1])
    requires x != [] || post == []
    ensures TrimEnd(x + post) == x
  {
    if |post| > 0 {
      assert (x + post)[..|x + post| - 1] == x + post[..|post| - 1];
      TrimEndAfter(x, post[..|post| - 1]);
    } else {
      assert x + post == x;
    }
  }

  // ---------------------------------------------------------------------
  // Fragments of complete lines

  /** `line.startsWith("data: ")`. */
  predicate IsDataLine(line: string)
  {
    |line| >= |DataPrefix| && line[..|DataPrefix|] == DataPrefix
  }

  /** `line.slice(6).trim()` of a data line. */
  function Payload(line: string): string
    requires IsDataLine(line)
  {
    Trim(line[|DataPrefix|..])
  }

  /** The text one complete line adds to the assistant's reply. */
  function Fragment(extract: Extractor, line: string): string
  {
    if !IsDataLine(line) then ""
    else if Payload(line) == DoneToken then ""
    else match extract(Payload(line))
      case Some(content) => content
      case None => ""
  }

  /** The fragment of each line, in order. */
  function Fragments(extract: Extractor, lines: seq<string>): (r: seq<string>)
    ensures |r| == |lines|
  {
    seq(|lines|, i requires 0 <= i < |lines| => Fragment(extract, lines[i]))
  }

  /** The reply assembled from complete lines: their fragments in order. */
  function Assembled(extract: Extractor, lines: seq<string>): string
  {
    Concat(Fragments(extract, lines))
  }

  /** Adding one line adds its fragment. */
  lemma AssembledSnoc(extract: Extractor, lines: seq<string>, line: string)
    ensures Assembled(extract, lines + [line]) == Assembled(extract, lines) + Fragment(extract, line)
  {
    var f := Fragments(extract, lines + [line]);
    assert f[..|f| - 1] == Fragments(extract, lines);
    assert f[|f| - 1] == Fragment(extract, line);
  }

  /** Assembling distributes over the line sequence, so the reply only grows:
      what was assembled from earlier lines is a prefix of what is assembled
      after more lines. */
  lemma AssembledAppend(extract: Extractor, a: seq<string>, b: seq<string>)
    ensures Assembled(extract, a + b) == Assembled(extract, a) + Assembled(extract, b)
  {
    assert Fragments(extract, a + b) == Fragments(extract, a) + Fragments(extract, b);
    ConcatAppend(Fragments(extract, a), Fragments(extract, b));
  }

  /** A line that is not a data line, carries the terminator token, or whose
      payload does not parse to a content field adds nothing; the lines
      around it are processed as if it were absent, so in particular the
      terminator does not end processing of the lines after it. */
  lemma SkippedLine(extract: Extractor, before: seq<string>, line: string, after: seq<string>)
    requires !IsDataLine(line) || Payload(line) == DoneToken || extract(Payload(line)).None?
    ensures Assembled(extract, before + [line] + after)
         == Assembled(extract, before) + Assembled(extract, after)
  {
    AssembledAppend(extract, before + [line], after);
    AssembledSnoc(extract, before, line);
  }

  /** A data line whose payload parses to content contributes that content. */
  lemma ContentLine(extract: Extractor, before: seq<string>, line: string, after: seq<string>, content: string)
    requires IsDataLine(line) && Payload(line) != DoneToken && extract(Payload(line)) == Some(content)
    ensures Assembled(extract, before + [line] + after)
         == Assembled(extract, before) + content + Assembled(extract, after)
  {
    AssembledAppend(extract, before + [line], after);
    AssembledSnoc(extract, before, line);
  }

  /** A data line carrying a payload whose ends are not whitespace has that payload. */
  lemma DataLinePayload(p: string)
    requires p == [] || (!IsTrimmable(p[0]) && !IsTrimmable(p[|p| - 1]))
    ensures IsDataLine(DataPrefix + p) && Payload(DataPrefix + p) == p
  {
    var line := DataPrefix + p;
    assert line[..|DataPrefix|] == DataPrefix;
    assert line[|DataPrefix|..] == [] + p + [];
    TrimSurrounded([], p, []);
  }

  /** A server-sent event stream of two content frames and the end marker,
      each followed by the blank separator line. */
  function EventStream(p1: string, p2: string): string
  {
    Terminated(EventLines(p1, p2))
  }

  function EventLines(p1: string, p2: string): seq<string>
  {
    [DataPrefix + p1, "", DataPrefix + p2, "", DataPrefix + DoneToken, ""]
  }

  /** However the stream is cut into chunks, the read loop hands exactly its
      six lines to the line loop, leaves nothing in the buffer, and the reply
      is the two contents in order. */
  lemma EventStreamAssembles(extract: Extractor, p1: string, p2: string, c1: string, c2: string, chunks: seq<string>)
    requires NoNewline(p1) && NoNewline(p2) && p1 != DoneToken && p2 != DoneToken
    requires p1 != [] && !IsTrimmable(p1[0]) && !IsTrimmable(p1[|p1| - 1])
    requires p2 != [] && !IsTrimmable(p2[0]) && !IsTrimmable(p2[|p2| - 1])
    requires extract(p1) == Some(c1) && extract(p2) == Some(c2)
    requires Concat(chunks) == EventStream(p1, p2)
    ensures Reassemble(chunks) == ("", EventLines(p1, p2))
    ensures Assembled(extract, Reassemble(chunks).1) == c1 + c2
  {
    var lines := EventLines(p1, p2);
    forall i | 0 <= i < |lines| ensures NoNewline(lines[i]) {
      if i == 0 || i == 2 {
        var p := if i == 0 then p1 else p2;
        forall j | 0 <= j < |DataPrefix + p| ensures (DataPrefix + p)[j] != '\n' {
          if j >= |DataPrefix| { assert (DataPrefix + p)[j] == p[j - |DataPrefix|]; }
        }
      }
    }
    assert Terminated(lines) + "" == EventStream(p1, p2);
    LinesDetermined(lines, "", EventStream(p1, p2));
    ReassembleIsSplit(chunks);
    EventFragments(extract, p1, p2, c1, c2);
    ConcatOfEventFragments(c1, c2);
  }

  lemma ConcatOfEventFragments(c1: string, c2: string)
    ensures Concat([c1, "", c2, "", "", ""]) == c1 + c2
  {
    ConcatSingle(c1);
    ConcatSingle(c2);
    ConcatSingle("");
    ConcatAppend([c1], [""]);
    assert [c1] + [""] == [c1, ""];
    ConcatAppend([c1, ""], [c2]);
    assert [c1, ""] + [c2] == [c1, "", c2];
    ConcatAppend([c1, "", c2], [""]);
    assert [c1, "", c2] + [""] == [c1, "", c2, ""];
    ConcatAppend([c1, "", c2, ""], [""]);
    assert [c1, "", c2, ""] + [""] == [c1, "", c2, "", ""];
    ConcatAppend([c1, "", c2, "", ""], [""]);
    assert [c1, "", c2, "", ""] + [""] == [c1, "", c2, "", "", ""];
  }

  lemma ConcatSingle(x: string)
    ensures Concat([x]) == x
  {
    assert [x][..0] == [];
  }

  lemma EventFragments(extract: Extractor, p1: string, p2: string, c1: string, c2: string)
    requires p1 != DoneToken && p1 != [] && !IsTrimmable(p1[0]) && !IsTrimmable(p1[|p1| - 1])
    requires p2 != DoneToken && p2 != [] && !IsTrimmable(p2[0]) && !IsTrimmable(p2[|p2| - 1])
    requires extract(p1) == Some(c1) && extract(p2) == Some(c2)
    ensures Fragments(extract, EventLines(p1, p2)) == [c1, "", c2, "", "", ""]
  {
    DataLinePayload(p1);
    DataLinePayload(p2);
    DataLinePayload(DoneToken);
    assert !IsDataLine("");
  }
}
