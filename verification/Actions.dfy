/** What the scheduler does when it executes a command. */
module Actions {
  import opened Entities

  datatype Action =
    | OpenWindow(rule: nat)
    | CloseWindow(rule: nat)
    | RunProgram(program: nat, group: nat)
    | RunConditionally(program: nat, rule: nat)
    | EnableNgn
    | DisableNgn

  /** The reception window of a rule opens or closes; a DMA program runs with a redundancy group,
      or depending on the frames received for a rule; the module is switched on or off. */
  predicate Does(cmd: SchedCmd, a: Action) {
    match a
    case OpenWindow(rule) => cmd.winOpen && rule == cmd.ruleId
    case CloseWindow(rule) => cmd.winClose && rule == cmd.ruleId
    case RunProgram(program, group) =>
      cmd.trigger.StandAlone? && program == cmd.dmaIndex && group == cmd.redundGroup
    case RunConditionally(program, rule) => cmd.trigger.FirstStage? && program == cmd.dmaIndex && rule == cmd.ruleId
    case EnableNgn => cmd.ngnEnable
    case DisableNgn => cmd.ngnDisable
  }

  /** A command that does nothing is a NOP for the table, and the other way round. */
  lemma ActiveDoes(cmd: SchedCmd)
    ensures Active(cmd) <==> exists a :: Does(cmd, a)
  {
    assert cmd.winOpen ==> Does(cmd, OpenWindow(cmd.ruleId));
    assert cmd.winClose ==> Does(cmd, CloseWindow(cmd.ruleId));
    assert cmd.trigger.StandAlone? ==> Does(cmd, RunProgram(cmd.dmaIndex, cmd.redundGroup));
    assert cmd.trigger.FirstStage? ==> Does(cmd, RunConditionally(cmd.dmaIndex, cmd.ruleId));
    assert cmd.ngnEnable ==> Does(cmd, EnableNgn);
    assert cmd.ngnDisable ==> Does(cmd, DisableNgn);
  }
}
