/** The chat page's conversation state and its `sendMessage` handler: the
    guard, the user turn and the empty assistant placeholder, the streaming
    read loop that fills in the placeholder, and the rollback on failure. */
module ChatSession {
  import opened Common
  import opened StreamLines

  datatype Role = User | Assistant

  datatype Message = Message(role: Role, content: string)

  /** How the backend answers one request. `Rejected`: `fetch` throws, the
      status is not ok, or there is no body to read. `Streamed`: the reader
      yields these decoded chunks in order and then either reports done or,
      when `readFails`, its next read throws. */
  datatype Response = Rejected | Streamed(chunks: seq<string>, readFails: bool)

  class Chat {
    /** JSON.parse of a payload and the `choices[0].delta.content` lookup. */
    const extract: Extractor

    var messages: seq<Message>
    var input: string
    var loading: bool

    /** The text after the last newline received so far. */
    var buffer: string
    /** The reply assembled so far in the current request. */
    var assistantContent: string

    /** All text received in the current request. */
    ghost var received: string
    /** The complete lines processed in the current request, in order. */
    ghost var processed: seq<string>
    /** The messages before the assistant placeholder. */
    ghost var history: seq<Message>

    constructor (extract: Extractor)
      ensures this.extract == extract
      ensures messages == [] && input == "" && !loading
    {
      this.extract := extract;
      messages, input, loading := [], "", false;
      buffer, assistantContent := "", "";
      received, processed, history := "", [], [];
    }

    /** The input field's `onChange`. */
    method SetInput(text: string)
      modifies this`input
      ensures input == text
    {
      input := text;
    }

    /** The state while a request is in flight: the buffer is newline-free,
        the processed lines and the buffer account for all text received,
        the reply is assembled from exactly the processed lines, and the
        last message is the assistant's, holding that reply. */
    ghost predicate Streaming()
      reads this
    {
      && loading
      && NoNewline(buffer) && AllNoNewline(processed)
      && Terminated(processed) + buffer == received
      && assistantContent == Assembled(extract, processed)
      && messages == history + [Message(Assistant, assistantContent)]
    }

    /** The start of `sendMessage`: nothing happens for a blank input or
        while a request is in flight; otherwise the user turn and an empty
        assistant placeholder are appended, the input is cleared and the
        request carries the earlier messages and the user turn. */
    method Begin() returns (request: Option<seq<Message>>)
      modifies this
      ensures Trim(old(input)) == "" || old(loading) ==> request == None && unchanged(this)
      ensures Trim(old(input)) != "" && !old(loading) ==>
        && request == Some(old(messages) + [Message(User, old(input))])
        && messages == old(messages) + [Message(User, old(input)), Message(Assistant, "")]
        && history == old(messages) + [Message(User, old(input))]
        && input == "" && received == "" && processed == [] && buffer == ""
        && Streaming()
    {
      if Trim(input) == "" || loading {
        return None;
      }
      var userMessage := Message(User, input);
      request := Some(messages + [userMessage]);
      messages := messages + [userMessage];
      history := messages;
      input := "";
      loading := true;
      assistantContent := "";
      messages := messages + [Message(Assistant, "")];
      buffer := "";
      received, processed := "", [];
      assert Fragments(extract, []) == [];
    }

    /** One pass of the read loop: append the decoded chunk to the buffer,
        keep the text after its last newline, and run every complete line
        through the line loop, extending the reply and the last message. */
    method ConsumeChunk(chunk: string)
      requires Streaming()
      modifies this
      ensures Streaming()
      ensures history == old(history) && input == old(input)
      ensures received == old(received) + chunk
      ensures processed == old(processed) + CompleteLines(old(buffer) + chunk)
      ensures buffer == LastLine(old(buffer) + chunk)
      ensures assistantContent == old(assistantContent) + Assembled(extract, CompleteLines(old(buffer) + chunk))
    {
      buffer := buffer + chunk;
      ghost var text := buffer;
      var lines := Split(buffer);
      buffer := lines[|lines| - 1];
      var complete := lines[..|lines| - 1];
      ProcessLines(complete);
      assert complete == CompleteLines(text) && buffer == LastLine(text);
      FeedPreserves(extract, processed, received, text[..|text| - |chunk|], chunk);
      assert text[..|text| - |chunk|] == old(buffer);
      processed := processed + complete;
      received := received + chunk;
    }

    /** The `for (const line of lines)` loop: each complete line's fragment
        is appended to the reply, and the last message is kept equal to the
        reply. */
    method ProcessLines(complete: seq<string>)
      requires messages == history + [Message(Assistant, assistantContent)]
      modifies this`assistantContent, this`messages
      ensures assistantContent == old(assistantContent) + Assembled(extract, complete)
      ensures messages == history + [Message(Assistant, assistantContent)]
    {
      for i := 0 to |complete|
        invariant assistantContent == old(assistantContent) + Assembled(extract, complete[..i])
        invariant messages == history + [Message(Assistant, assistantContent)]
      {
        var line := complete[i];
        ghost var before := assistantContent;
        if IsDataLine(line) {
          var data := Trim(line[|DataPrefix|..]);
          if data == DoneToken {
            assert Fragment(extract, line) == "";
            LineStep(extract, old(assistantContent), complete, i, before, assistantContent);
            continue;
          }
          match extract(data)
          case Some(content) =>
            if content != "" {
              assistantContent := assistantContent + content;
              messages := messages[..|messages| - 1] + [Message(Assistant, assistantContent)];
            }
            assert Fragment(extract, line) == content;
          case None =>
            assert Fragment(extract, line) == "";
        }
        LineStep(extract, old(assistantContent), complete, i, before, assistantContent);
      }
      assert complete[..|complete|] == complete;
    }

    /** The line loop's step: one more line's fragment has been added. */
    static lemma LineStep(extract: Extractor, start: string, lines: seq<string>, i: nat, before: string, after: string)
      requires i < |lines|
      requires before == start + Assembled(extract, lines[..i])
      requires after == before + Fragment(extract, lines[i])
      ensures after == start + Assembled(extract, lines[..i + 1])
    {
      assert lines[..i + 1] == lines[..i] + [lines[i]];
      AssembledSnoc(extract, lines[..i], lines[i]);
    }

    /** The `catch` and `finally` of `sendMessage`: the last message, the
        assistant placeholder, is removed and the request is over. */
    method Fail()
      requires Streaming()
      modifies this`messages, this`loading
      ensures messages == old(messages)[..|old(messages)| - 1] == old(history)
      ensures !loading
    {
      messages := messages[..|messages| - 1];
      loading := false;
    }

    /** The `finally` of `sendMessage` after the reader reports done. */
    method Finish()
      requires Streaming()
      modifies this`loading
      ensures !loading
    {
      loading := false;
    }

    /** `sendMessage` against one backend response. The lines the read loop
        processed and the buffer it leaves are those of the chunk-by-chunk
        function `Reassemble`, so its chunking lemmas apply to this loop. */
    method SendMessage(response: Response) returns (request: Option<seq<Message>>)
      modifies this
      ensures Trim(old(input)) == "" || old(loading) ==> request == None && unchanged(this)
      ensures Trim(old(input)) != "" && !old(loading) ==>
        request == Some(old(messages) + [Message(User, old(input))]) && input == "" && !loading
      ensures Trim(old(input)) != "" && !old(loading) && response.Streamed? ==>
        processed == Reassemble(response.chunks).1 && buffer == Reassemble(response.chunks).0
      ensures Trim(old(input)) != "" && !old(loading) ==>
        match response
           case Streamed(chunks, false) =>
             && messages == old(messages) + [Message(User, old(input)),
                                             Message(Assistant, Assembled(extract, CompleteLines(Concat(chunks))))]
             && buffer == LastLine(Concat(chunks))
           case _ =>
             messages == old(messages) + [Message(User, old(input))]
    {
      request := Begin();
      if request.None? {
        return;
      }
      if response.Rejected? {
        Fail();
        return;
      }
      var chunks := response.chunks;
      var i := 0;
      while i < |chunks|
        invariant 0 <= i <= |chunks|
        invariant Streaming() && input == ""
        invariant history == old(messages) + [Message(User, old(input))]
        invariant received == Concat(chunks[..i])
      {
        assert chunks[..i + 1][..i] == chunks[..i];
        ConsumeChunk(chunks[i]);
        i := i + 1;
      }
      assert chunks[..i] == chunks;
      LinesDetermined(processed, buffer, received);
      ReassembleIsSplit(chunks);
      if response.readFails {
        Fail();
      } else {
        Finish();
      }
    }
  }
}
