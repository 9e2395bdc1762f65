/** The workflow base class of the Python framework: a name and the list of agents taking part,
    to which agents are appended one at a time. */
module WorkflowBase {
  import opened Wrappers
  import opened Decimal

  /** `ClassName(name=<name>, agents=<count>)`: the class name, the workflow's name after
      "(name=", then ", agents=" and the count in decimal digits, closed by ')'. */
  function ReprText(className: string, name: string, count: nat): (r: string)
    ensures var p := |className| + 6; var q := p + |name| + 9;
      && |r| > q
      && r[..p] == className + "(name="
      && r[p..p + |name|] == name
      && r[p + |name|..q] == ", agents="
      && r[|r| - 1] == ')'
      && AllDigits(r[q..|r| - 1]) && Value(r[q..|r| - 1]) == count
  {
    var r := className + "(name=" + name + ", agents=" + ShowNat(count) + ")";
    var q := |className| + 6 + |name| + 9;
    assert r[q..|r| - 1] == ShowNat(count);
    ValueOfShowNat(count);
    r
  }

  /** The text tells the agent count: the same class and name with different counts read
      differently. */
  lemma ReprTextTellsCount(className: string, name: string, a: nat, b: nat)
    requires ReprText(className, name, a) == ReprText(className, name, b)
    ensures a == b
  {
    var prefix := className + "(name=" + name + ", agents=";
    var ra, rb := ReprText(className, name, a), ReprText(className, name, b);
    assert ra == prefix + (ShowNat(a) + ")");
    assert rb == prefix + (ShowNat(b) + ")");
    assert ra[|prefix|..] == ShowNat(a) + ")";
    assert rb[|prefix|..] == ShowNat(b) + ")";
    assert ShowNat(a) == (ShowNat(a) + ")")[..|ShowNat(a)|];
    assert ShowNat(b) == (ShowNat(b) + ")")[..|ShowNat(b)|];
    ShowNatInjective(a, b);
  }

  /** A workflow over agents of type A (`BaseWorkflow`). */
  class BaseWorkflow<A> {
    var name: string
    var agents: seq<A>

    /** `BaseWorkflow(name, agents=None)`: the agents given, or none. */
    constructor (name: string, agents: Option<seq<A>>)
      ensures this.name == name
      ensures agents.None? ==> this.agents == []
      ensures agents.Some? ==> this.agents == agents.value
    {
      this.name := name;
      this.agents := OrElse(agents, []);
    }

    /** `add_agent(agent)`: the agent goes last, nothing else changes. */
    method AddAgent(agent: A)
      modifies this
      ensures agents == old(agents) + [agent]
      ensures name == old(name)
    {
      agents := agents + [agent];
    }

    /** `repr(workflow)`, where className is the concrete class's name. */
    function Repr(className: string): (r: string)
      reads this
      ensures r == ReprText(className, name, |agents|)
    {
      ReprText(className, name, |agents|)
    }
  }

  /** A fresh workflow named after its class shows zero agents; each AddAgent adds one. */
  method ReprAfterAdds<A>(className: string, a1: A, a2: A) returns (before: string, after: string)
    ensures before == className + "(name=" + className + ", agents=0)"
    ensures after == className + "(name=" + className + ", agents=2)"
  {
    var w := new BaseWorkflow<A>(className, None);
    before := w.Repr(className);
    w.AddAgent(a1);
    w.AddAgent(a2);
    after := w.Repr(className);
  }
}
