/**
 * The edit-session gate of the editor: a local edit raises `isEditing` and arms a
 * delayed reset; an external content update replaces the buffer only while the
 * flag is down. Timer callbacks are explicit `ResetFires` inputs; every edit arms
 * its own reset and no reset is ever cancelled.
 */
module Session {

  /** The buffer, the editing flag and the number of armed resets still to fire. */
  datatype State = State(buffer: string, isEditing: bool, pendingResets: nat)

  /** The inputs that reach the gate. */
  datatype Input =
    | LocalEdit(text: string)       // the user changed the buffer to text
    | ExternalUpdate(content: string) // the host pushed content
    | ResetFires                    // one armed reset callback runs

  /** A freshly attached editor. */
  function Initial(content: string): State
  {
    State(content, false, 0)
  }

  /**
   * The buffer after an external update: replaced by content when not editing
   * and different, otherwise kept.
   */
  function ApplyExternal(isEditing: bool, buffer: string, content: string): (r: string)
    ensures isEditing ==> r == buffer
    ensures !isEditing ==> r == content
  {
    if !isEditing && buffer != content then content else buffer
  }

  /** One input applied to the gate. */
  function Step(s: State, i: Input): (r: State)
    ensures i.LocalEdit? ==> r.buffer == i.text && r.isEditing && r.pendingResets == s.pendingResets + 1
    ensures i.ExternalUpdate? ==>
      && r.isEditing == s.isEditing && r.pendingResets == s.pendingResets
      && (s.isEditing ==> r.buffer == s.buffer)
      && (!s.isEditing ==> r.buffer == i.content)
    ensures i.ResetFires? ==>
      && !r.isEditing && r.buffer == s.buffer
      && r.pendingResets == if s.pendingResets > 0 then s.pendingResets - 1 else 0
  {
    match i
    case LocalEdit(text) => State(text, true, s.pendingResets + 1)
    case ExternalUpdate(content) => s.(buffer := ApplyExternal(s.isEditing, s.buffer, content))
    case ResetFires => State(s.buffer, false, if s.pendingResets > 0 then s.pendingResets - 1 else 0)
  }

  /** A sequence of inputs applied in order. */
  function Run(s: State, trace: seq<Input>): State
    decreases |trace|
  {
    if trace == [] then s else Run(Step(s, trace[0]), trace[1..])
  }

  /** While the flag is up, some reset is still armed to lower it. */
  predicate Inv(s: State)
  {
    s.isEditing ==> s.pendingResets > 0
  }

  lemma StepKeepsInv(s: State, i: Input)
    requires Inv(s)
    ensures Inv(Step(s, i))
  {
  }

  lemma {:induction false} RunKeepsInv(s: State, trace: seq<Input>)
    requires Inv(s)
    ensures Inv(Run(s, trace))
    decreases |trace|
  {
    if trace != [] {
      StepKeepsInv(s, trace[0]);
      RunKeepsInv(Step(s, trace[0]), trace[1..]);
    }
  }

  /** The trace contains only external updates. */
  predicate OnlyExternal(trace: seq<Input>)
  {
    forall k :: 0 <= k < |trace| ==> trace[k].ExternalUpdate?
  }

  /**
   * A local edit is never overwritten while its window is open: any number of
   * external updates after an edit, before a reset fires, leave the edited text.
   */
  lemma {:induction false} EditSurvivesExternalUpdates(s: State, text: string, trace: seq<Input>)
    requires OnlyExternal(trace)
    ensures Run(Step(s, LocalEdit(text)), trace).buffer == text
    ensures Run(Step(s, LocalEdit(text)), trace).isEditing
  {
    EditingSurvives(Step(s, LocalEdit(text)), trace);
  }

  lemma {:induction false} EditingSurvives(s: State, trace: seq<Input>)
    requires s.isEditing && OnlyExternal(trace)
    ensures Run(s, trace) == s
    decreases |trace|
  {
    if trace != [] {
      assert trace[0].ExternalUpdate?;
      assert OnlyExternal(trace[1..]) by {
        forall k | 0 <= k < |trace[1..]| ensures trace[1..][k].ExternalUpdate? {
          assert trace[1..][k] == trace[k + 1];
        }
      }
      EditingSurvives(Step(s, trace[0]), trace[1..]);
    }
  }

  /** When the flag is down, an external update is applied verbatim. */
  lemma IdleUpdateApplied(s: State, content: string)
    requires !s.isEditing
    ensures Step(s, ExternalUpdate(content)) == State(content, false, s.pendingResets)
  {
  }

  /** The host echoing the current buffer back changes nothing, editing or not. */
  lemma EchoIsHarmless(s: State)
    ensures Step(s, ExternalUpdate(s.buffer)) == s
  {
  }

  /** n resets firing in a row. */
  function Resets(n: nat): (trace: seq<Input>)
    ensures |trace| == n
    ensures forall k :: 0 <= k < |trace| ==> trace[k] == ResetFires
  {
    if n == 0 then [] else [ResetFires] + Resets(n - 1)
  }

  /** Once every armed reset has fired the flag is down, and the buffer is untouched. */
  lemma {:induction false} GateReopens(s: State)
    requires Inv(s)
    ensures Run(s, Resets(s.pendingResets)) == State(s.buffer, false, 0)
    decreases s.pendingResets
  {
    if s.pendingResets > 0 {
      var t := Step(s, ResetFires);
      assert Resets(s.pendingResets)[1..] == Resets(t.pendingResets);
      GateReopens(t);
    }
  }

  /**
   * An edit followed at once by an external update keeps the edit; an edit whose
   * reset has fired lets the next external update through.
   */
  lemma DebounceExamples(initial: string, edit: string, external: string)
    ensures Run(Initial(initial), [LocalEdit(edit), ExternalUpdate(external)]).buffer == edit
    ensures Run(Initial(initial), [LocalEdit(edit), ResetFires, ExternalUpdate(external)]).buffer == external
  {
    var edited := Step(Initial(initial), LocalEdit(edit));
    var t1 := [LocalEdit(edit), ExternalUpdate(external)];
    assert t1[1..] == [ExternalUpdate(external)];
    assert Run(Initial(initial), t1) == Run(edited, [ExternalUpdate(external)]);
    assert Run(edited, [ExternalUpdate(external)]) == Step(edited, ExternalUpdate(external));

    var reset := Step(edited, ResetFires);
    var t2 := [LocalEdit(edit), ResetFires, ExternalUpdate(external)];
    assert t2[1..] == [ResetFires, ExternalUpdate(external)];
    assert [ResetFires, ExternalUpdate(external)][1..] == [ExternalUpdate(external)];
    assert Run(Initial(initial), t2) == Run(edited, [ResetFires, ExternalUpdate(external)]);
    assert Run(edited, [ResetFires, ExternalUpdate(external)]) == Run(reset, [ExternalUpdate(external)]);
    assert Run(reset, [ExternalUpdate(external)]) == Step(reset, ExternalUpdate(external));
  }

  /**
   * Resets are not cancelled by later edits: after two quick edits the first
   * edit's reset lowers the flag while the second edit's reset is still armed,
   * and an external update then replaces the second edit.
   */
  lemma EarlyResetReopensGate(initial: string, first: string, second: string, external: string)
    requires external != second
    ensures var s := Run(Initial(initial), [LocalEdit(first), LocalEdit(second), ResetFires]);
      s == State(second, false, 1) && Step(s, ExternalUpdate(external)).buffer == external
  {
    var s1 := Step(Initial(initial), LocalEdit(first));
    var s2 := Step(s1, LocalEdit(second));
    var t := [LocalEdit(first), LocalEdit(second), ResetFires];
    assert t[1..] == [LocalEdit(second), ResetFires];
    assert t[1..][1..] == [ResetFires];
    assert Run(Initial(initial), t) == Run(s1, [LocalEdit(second), ResetFires]);
    assert Run(s1, [LocalEdit(second), ResetFires]) == Run(s2, [ResetFires]);
    assert Run(s2, [ResetFires]) == Step(s2, ResetFires);
  }
}
