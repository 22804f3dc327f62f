/** The merged tool registry: the local tools, then every upstream tool that collides with none before it. */
module Registry {
  import opened Basics
  import opened Json

  datatype ToolDef = ToolDef(name: string, description: string, inputSchema: Value)

  predicate IsLocalTool(name: string) {
    "figmog_" <= name
  }

  function NameOf(tool: Value): Option<string> {
    StrField(tool, "name")
  }

  function Names(tools: seq<ToolDef>): set<string> {
    set t | t in tools :: t.name
  }

  function Proxied(tool: Value): ToolDef
    requires NameOf(tool).Some?
  {
    ToolDef(NameOf(tool).value, "[via Figma desktop] " + GetOr(StrField(tool, "description"), ""),
            GetOr(tool.Get("inputSchema"), Object([Field("type", Str("object"))])))
  }

  /** The k-th upstream tool collides with no local tool and with no upstream tool before it. */
  predicate IsNew(local: seq<ToolDef>, tools: seq<Value>, k: nat)
    requires k < |tools| && NameOf(tools[k]).Some?
  {
    var name := NameOf(tools[k]).value;
    && !IsLocalTool(name) && name !in Names(local)
    && forall j :: 0 <= j < k ==> NameOf(tools[j]) != Some(name)
  }

  predicate Accepted(local: seq<ToolDef>, tools: seq<Value>, k: nat)
    requires k < |tools|
  {
    NameOf(tools[k]).Some? && IsNew(local, tools, k)
  }

  predicate Collides(local: seq<ToolDef>, tools: seq<Value>, k: nat)
    requires k < |tools|
  {
    NameOf(tools[k]).Some? && !IsNew(local, tools, k)
  }

  /** The accepted ones among the first k, in order. */
  function NewTools(local: seq<ToolDef>, tools: seq<Value>, k: nat): seq<ToolDef>
    requires k <= |tools|
  {
    if k == 0 then []
    else if Accepted(local, tools, k - 1) then NewTools(local, tools, k - 1) + [Proxied(tools[k - 1])]
    else NewTools(local, tools, k - 1)
  }

  /** The names of the colliding ones among the first k, in order. */
  function Collisions(local: seq<ToolDef>, tools: seq<Value>, k: nat): seq<string>
    requires k <= |tools|
  {
    if k == 0 then []
    else if Collides(local, tools, k - 1) then Collisions(local, tools, k - 1) + [NameOf(tools[k - 1]).value]
    else Collisions(local, tools, k - 1)
  }

  /** One pass with a set of the names seen: what it keeps and drops is decided per tool by `IsNew`. */
  method MergeRegistry(local: seq<ToolDef>, tools: seq<Value>) returns (merged: seq<ToolDef>, dropped: seq<string>)
    ensures merged == local + NewTools(local, tools, |tools|)
    ensures dropped == Collisions(local, tools, |tools|)
  {
    hide NameOf, IsLocalTool, Proxied, Names;
    var seen := Names(local);
    merged, dropped := local, [];
    for k := 0 to |tools|
      invariant merged == local + NewTools(local, tools, k)
      invariant dropped == Collisions(local, tools, k)
      invariant forall name :: name in seen <==>
        name in Names(local) || (!IsLocalTool(name) && exists j :: 0 <= j < k && NameOf(tools[j]) == Some(name))
    {
      match NameOf(tools[k])
      case None =>
      case Some(name) =>
        assert IsNew(local, tools, k) <==> !IsLocalTool(name) && name !in seen;
        if IsLocalTool(name) || name in seen {
          dropped := dropped + [name];
        } else {
          seen := seen + {name};
          merged := merged + [Proxied(tools[k])];
        }
    }
  }

  ghost predicate DistinctNames(tools: seq<ToolDef>) {
    forall i, j :: 0 <= i < j < |tools| ==> tools[i].name != tools[j].name
  }

  lemma {:induction false} NewNames(local: seq<ToolDef>, tools: seq<Value>, k: nat)
    requires k <= |tools|
    ensures forall t <- NewTools(local, tools, k) ::
      t.name !in Names(local) && exists j :: 0 <= j < k && NameOf(tools[j]) == Some(t.name)
  {
    hide NameOf, IsLocalTool, Names;
    if k > 0 {
      NewNames(local, tools, k - 1);
    }
  }

  /** Every tool is listed once: the registry's names are distinct if the local ones are. */
  lemma {:induction false} MergedDistinct(local: seq<ToolDef>, tools: seq<Value>, k: nat)
    requires k <= |tools| && DistinctNames(local)
    ensures DistinctNames(local + NewTools(local, tools, k))
  {
    hide NameOf, IsLocalTool;
    if k > 0 {
      MergedDistinct(local, tools, k - 1);
      NewNames(local, tools, k - 1);
      var before := local + NewTools(local, tools, k - 1);
      if Accepted(local, tools, k - 1) {
        assert local + NewTools(local, tools, k) == before + [Proxied(tools[k - 1])];
        forall i | 0 <= i < |before| ensures before[i].name != NameOf(tools[k - 1]).value {
          assert before[i] in local || before[i] in NewTools(local, tools, k - 1);
        }
      }
    }
  }

  predicate ReservedName(name: string) {
    |name| >= 7 && name[..7] == "figmog_"
  }

  /** The tool a proxied entry stands for: its own name, never a reserved one; its description, marked; and
      its schema, or that of any object. */
  ghost predicate StandsFor(t: ToolDef, tool: Value) {
    && tool.Get("name") == Some(Str(t.name)) && !ReservedName(t.name)
    && t.description == "[via Figma desktop] "
         + (match tool.Get("description") case Some(Str(d)) => d case _ => "")
    && (match tool.Get("inputSchema")
        case Some(schema) => t.inputSchema == schema
        case None => t.inputSchema.Object? && forall k ::
            t.inputSchema.Get(k) == if k == "type" then Some(Str("object")) else None)
  }

  /** Every tool added by the merge stands for an upstream tool, and no upstream tool of a new name is left
      out. */
  lemma {:induction false} MergedAreUpstream(local: seq<ToolDef>, tools: seq<Value>, k: nat)
    requires k <= |tools|
    ensures forall t <- NewTools(local, tools, k) :: exists j :: 0 <= j < k && StandsFor(t, tools[j])
    ensures forall j :: 0 <= j < k && tools[j].Get("name").Some? && tools[j].Get("name").value.Str? ==>
      (var name := tools[j].Get("name").value.s;
       ReservedName(name) || exists t :: t in local + NewTools(local, tools, k) && t.name == name)
  {
    if k > 0 {
      MergedAreUpstream(local, tools, k - 1);
      if Accepted(local, tools, k - 1) {
        ProxiedStands(tools[k - 1]);
      }
    }
  }

  lemma ProxiedStands(tool: Value)
    requires NameOf(tool).Some? && !IsLocalTool(NameOf(tool).value)
    ensures StandsFor(Proxied(tool), tool)
  {
  }
}
