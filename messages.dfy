/** Role-tagged chat messages, as the chat adapters build and consume them,
    and the two views of a prompt every adapter takes: the content of the
    last message with a given role, and the messages that are not system
    messages, in order. */
module Messages {
  import opened Common

  /** `{"role": role, "content": content}` */
  datatype Message = Message(role: string, content: string)

  /** `system_message(message)` */
  function SystemMessage(m: string): (r: Message)
    ensures r.role == "system" && r.content == m
  {
    Message("system", m)
  }

  /** `user_message(message)` */
  function UserMessage(m: string): (r: Message)
    ensures r.role == "user" && r.content == m
  {
    Message("user", m)
  }

  /** `assistant_message(message)` */
  function AssistantMessage(m: string): (r: Message)
    ensures r.role == "assistant" && r.content == m
  {
    Message("assistant", m)
  }

  // ---------------------------------------------------------------------
  // The last message of a role

  /** The content of the last message whose role is `role`; a later message
      of that role replaces an earlier one. */
  function LastContent(prompt: seq<Message>, role: string): Option<string> {
    if prompt == [] then None
    else if prompt[|prompt| - 1].role == role then Some(prompt[|prompt| - 1].content)
    else LastContent(prompt[..|prompt| - 1], role)
  }

  /** Message `i` has the role and no later message has it. */
  predicate IsLastOfRole(prompt: seq<Message>, role: string, i: int) {
    0 <= i < |prompt| && prompt[i].role == role &&
    forall j :: i < j < |prompt| ==> prompt[j].role != role
  }

  /** `LastContent` is `Some(c)` exactly when some message of the role has
      content `c` and no later message has that role. */
  lemma {:induction false} LastContentIsLast(prompt: seq<Message>, role: string, c: string)
    ensures LastContent(prompt, role) == Some(c) <==>
      exists i :: IsLastOfRole(prompt, role, i) && prompt[i].content == c
  {
    if prompt != [] {
      var n := |prompt| - 1;
      var front := prompt[..n];
      LastContentIsLast(front, role, c);
      if prompt[n].role == role {
        if exists i :: IsLastOfRole(prompt, role, i) && prompt[i].content == c {
          var i :| IsLastOfRole(prompt, role, i) && prompt[i].content == c;
          assert i == n;
        }
      } else {
        if LastContent(prompt, role) == Some(c) {
          var i :| IsLastOfRole(front, role, i) && front[i].content == c;
          assert prompt[i] == front[i];
          forall j | i < j < |prompt| ensures prompt[j].role != role {
            if j < n { assert prompt[j] == front[j]; }
          }
          assert IsLastOfRole(prompt, role, i);
        }
        if exists i :: IsLastOfRole(prompt, role, i) && prompt[i].content == c {
          var i :| IsLastOfRole(prompt, role, i) && prompt[i].content == c;
          assert i < n;
          assert front[i] == prompt[i];
          forall j | i < j < |front| ensures front[j].role != role {
            assert front[j] == prompt[j];
          }
          assert IsLastOfRole(front, role, i);
        }
      }
    }
  }

  /** `LastContent` is `None` exactly when no message has the role. */
  lemma {:induction false} LastContentNone(prompt: seq<Message>, role: string)
    ensures LastContent(prompt, role).None? <==> forall i :: 0 <= i < |prompt| ==> prompt[i].role != role
  {
    if prompt != [] {
      var n := |prompt| - 1;
      LastContentNone(prompt[..n], role);
      assert forall i :: 0 <= i < n ==> prompt[..n][i] == prompt[i];
    }
  }

  // ---------------------------------------------------------------------
  // The messages that are not system messages

  predicate IsSystem(m: Message) {
    m.role == "system"
  }

  /** The non-system messages of `prompt`, in their original order. */
  function NonSystem(prompt: seq<Message>): seq<Message> {
    if prompt == [] then []
    else if IsSystem(prompt[0]) then NonSystem(prompt[1..])
    else [prompt[0]] + NonSystem(prompt[1..])
  }

  /** Filtering a concatenation filters each part. */
  lemma {:induction false} NonSystemAppend(a: seq<Message>, b: seq<Message>)
    ensures NonSystem(a + b) == NonSystem(a) + NonSystem(b)
  {
    if a == [] {
      assert a + b == b;
    } else {
      assert (a + b)[1..] == a[1..] + b;
      NonSystemAppend(a[1..], b);
    }
  }

  /** A message is kept exactly when it is in the prompt and is not a system
      message. */
  lemma {:induction false} NonSystemMembers(prompt: seq<Message>, m: Message)
    ensures m in NonSystem(prompt) <==> m in prompt && !IsSystem(m)
  {
    if prompt != [] {
      NonSystemMembers(prompt[1..], m);
      assert prompt == [prompt[0]] + prompt[1..];
    }
  }

  /** A prompt with no system message is kept whole. */
  lemma {:induction false} NonSystemKeepsAll(prompt: seq<Message>)
    requires forall i :: 0 <= i < |prompt| ==> !IsSystem(prompt[i])
    ensures NonSystem(prompt) == prompt
  {
    if prompt != [] {
      NonSystemKeepsAll(prompt[1..]);
    }
  }

  /** A prompt built with the message builders: what the two views of the
      prompt are. */
  lemma BuiltPrompt(s: string, u: string, a: string)
    ensures var p := [SystemMessage(s), UserMessage(u), AssistantMessage(a)];
      && LastContent(p, "system") == Some(s)
      && LastContent(p, "user") == Some(u)
      && NonSystem(p) == [UserMessage(u), AssistantMessage(a)]
  {
    var p := [SystemMessage(s), UserMessage(u), AssistantMessage(a)];
    assert "assistant" != "system" by { assert "assistant"[0] != "system"[0]; }
    assert "assistant" != "user" by { assert "assistant"[0] != "user"[0]; }
    assert "user" != "system" by { assert "user"[0] != "system"[0]; }
    assert p[..2] == [SystemMessage(s), UserMessage(u)];
    assert p[..2][..1] == [SystemMessage(s)];
    assert LastContent(p[..2][..1], "system") == Some(s);
    assert LastContent(p[..2], "system") == Some(s);
    assert LastContent(p, "system") == Some(s);
    assert LastContent(p[..2], "user") == Some(u);
    assert LastContent(p, "user") == Some(u);
    assert p[1..] == [UserMessage(u), AssistantMessage(a)];
    assert p[1..][1..] == [AssistantMessage(a)];
    assert p[1..][1..][1..] == [];
    assert NonSystem(p[1..][1..]) == [AssistantMessage(a)];
    assert NonSystem(p[1..]) == [UserMessage(u), AssistantMessage(a)];
  }
}
