/** The run-time store of components/memory.py (`Memory`), whose dictionary `set` updates in
    place, together with the `run` methods of components/ast/statement.py, which change that
    store step by step. Each method is proved against the functions of `Store` and `Ast`. */
module Memory {
  import opened Values
  import opened Store
  import opened Ast

  class Memory {
    /** `self.memory`: name to `{"value": ..., "data_type": ...}`. */
    var memory: Vars

    /** A fresh store holds no variables. */
    constructor ()
      ensures memory == map[]
    {
      memory := map[];
    }

    /** `set`: replaces the name's value and type, leaving every other name as it was. */
    method Set(name: string, value: Value, dataType: DataType)
      modifies this
      ensures memory == Store.Set(old(memory), name, value, dataType)
    {
      memory := memory[name := Entry(value, dataType)];
    }

    /** `get`: the stored value, or `None` where the source raises `KeyError`. */
    method Get(name: string) returns (r: Option<Value>)
      ensures r == Store.Get(memory, name)
      ensures r.Some? <==> name in memory
    {
      if name in memory {
        r := Some(memory[name].value);
      } else {
        r := None;
      }
    }

    /** `run` of every statement class: the output, the final store and the way the run ends
        are exactly those `Exec` describes. */
    method Run(s: Stmt, fuel: nat) returns (printed: seq<Value>, status: Status)
      modifies this
      ensures Exec(s, old(memory), fuel) == Outcome(memory, printed, status)
      decreases fuel, s, 1
    {
      match s
      case Print(e) =>
        var v := Eval(e, memory);
        if v.Ok? {
          printed, status := [v.value], Normal;
        } else {
          printed, status := [], Failed(v.error);
        }
      case Assign(name, e) =>
        var v := Eval(e, memory);
        if v.Ok? {
          Set(name, v.value, TypeOf(v.value));
          printed, status := [], Normal;
        } else {
          printed, status := [], Failed(v.error);
        }
      case If(c, t, f) =>
        var v := Eval(c, memory);
        if v.Err? {
          printed, status := [], Failed(v.error);
        } else if Truthy(v.value) {
          printed, status := Run(t, fuel);
        } else if f.Some? {
          printed, status := Run(f.value, fuel);
        } else {
          printed, status := [], Normal;
        }
      case While(c, body) =>
        printed, status := RunWhile(c, body, fuel);
      case Compound(ss) =>
        printed, status := RunAll(ss, fuel);
    }

    /** `WhileStatement.run`: evaluate the condition before every iteration and run the body
        while it is truthy, each iteration using one unit of the loop budget. */
    method RunWhile(c: Expr, body: Stmt, fuel: nat) returns (printed: seq<Value>, status: Status)
      modifies this
      ensures Exec(While(c, body), old(memory), fuel) == Outcome(memory, printed, status)
      decreases fuel, While(c, body), 0
    {
      printed, status := [], Normal;
      var budget: nat := fuel;
      while true
        invariant budget <= fuel
        invariant Exec(While(c, body), old(memory), fuel) == Then(printed, Exec(While(c, body), memory, budget))
        decreases budget
      {
        if budget == 0 {
          status := OutOfFuel;
          return;
        }
        var v := Eval(c, memory);
        if v.Err? {
          status := Failed(v.error);
          return;
        }
        if !Truthy(v.value) {
          assert printed + [] == printed;
          return;
        }
        ghost var before := memory;
        var out, st := Run(body, budget - 1);
        WhileStep(c, body, before, budget);
        if st != Normal {
          printed, status := printed + out, st;
          return;
        }
        ThenThen(printed, out, Exec(While(c, body), memory, budget - 1));
        printed := printed + out;
        budget := budget - 1;
      }
    }

    /** `CompoundStatement.run`: the statements in list order on this one store, stopping at
        the first that does not end normally. */
    method RunAll(ss: seq<Stmt>, fuel: nat) returns (printed: seq<Value>, status: Status)
      modifies this
      ensures ExecSeq(ss, old(memory), fuel) == Outcome(memory, printed, status)
      decreases fuel, ss, 0
    {
      printed, status := [], Normal;
      for i := 0 to |ss|
        invariant ExecSeq(ss, old(memory), fuel) == Then(printed, ExecSeq(ss[i..], memory, fuel))
      {
        ghost var before := memory;
        var out, st := Run(ss[i], fuel);
        ExecSeqFrom(ss, i, before, fuel);
        ThenThen(printed, out, ExecSeq(ss[i + 1..], memory, fuel));
        printed := printed + out;
        if st != Normal {
          status := st;
          return;
        }
      }
      assert ss[|ss|..] == [];
      assert printed + [] == printed;
    }
  }
}
