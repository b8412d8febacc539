/**
 * Workflows, their blocks and the retrieval settings of each block.
 *
 * A workflow owns child workflows and blocks; a block owns its retrieval
 * settings and the documents loaded into it. The object graph is on the
 * heap: constructors register the new object with its owner, and the
 * context loader later replaces the block document lists in place.
 *
 * The workflow tree is made acyclic by a ghost footprint `Nodes` (the
 * workflows of the subtree), which also gives the recursive walks their
 * termination measure. Functions read configuration fields only, one field
 * at a time, so that updating `Block.Documents` leaves them unchanged.
 */
module Workflows {

  import opened Wrappers
  import opened Common
  import opened Documents

  datatype BlockType = AiQuery | Merge | SimpleRag

  datatype RagType = WholeDocument | UseTopics | UseAutoDetectedTableOfContents

  class RagSettings {
    var Block: Block?
    var Type: RagType
    var TableOfContentsInput: Option<string>

    /** The parameterless constructor: no owning block, `WholeDocument`, no table-of-contents model. */
    constructor Detached()
      ensures Block == null && Type == WholeDocument && TableOfContentsInput == None
    {
      Block := null;
      Type := WholeDocument;
      TableOfContentsInput := None;
    }

    /** Registers the new settings at the end of the owner's list, which is otherwise unchanged. */
    constructor (block: Block)
      modifies block`RagSettings
      ensures Block == block && Type == WholeDocument && TableOfContentsInput == None
      ensures block.RagSettings == old(block.RagSettings) + [this]
    {
      Block := block;
      Type := WholeDocument;
      TableOfContentsInput := None;
      new;
      block.RagSettings := block.RagSettings + [this];
    }
  }

  class Block {
    var RagSettings: seq<RagSettings>
    var Name: string
    var Order: int
    var Type: BlockType
    var SupportedDocumentClasses: seq<string>
    var Documents: seq<Document>
    var Workflow: Workflow?

    /** The parameterless constructor: defaults everywhere and no owning workflow. */
    constructor Detached()
      ensures RagSettings == [] && Name == "" && Order == 0 && Type == AiQuery
      ensures SupportedDocumentClasses == [] && Documents == [] && Workflow == null
    {
      RagSettings := [];
      Name := "";
      Order := 0;
      Type := AiQuery;
      SupportedDocumentClasses := [];
      Documents := [];
      Workflow := null;
    }

    /** Defaults, the back-reference, and the new block appended to the owner's blocks. */
    constructor (workflow: Workflow)
      modifies workflow`Blocks
      ensures RagSettings == [] && Name == "" && Order == 0 && Type == AiQuery
      ensures SupportedDocumentClasses == [] && Documents == [] && Workflow == workflow
      ensures workflow.Blocks == old(workflow.Blocks) + [this]
    {
      RagSettings := [];
      Name := "";
      Order := 0;
      Type := AiQuery;
      SupportedDocumentClasses := [];
      Documents := [];
      Workflow := workflow;
      new;
      workflow.Blocks := workflow.Blocks + [this];
    }

    /** The configuration the context loader reads when it attaches a document. */
    function Config(): (r: BlockConfig)
      reads this`SupportedDocumentClasses, this`Type, this`RagSettings
      ensures r.classes == SupportedDocumentClasses && r.usesDocuments == (Type != Merge)
      ensures r.hasRagSettings == (RagSettings != [])
    {
      BlockConfig(SupportedDocumentClasses, ShouldUseDocuments(), |RagSettings| != 0)
    }

    /** Query and simple retrieval blocks read documents; merge blocks never do. */
    function ShouldUseDocuments(): (r: bool)
      reads this`Type
      ensures r <==> Type != Merge
    {
      Type == AiQuery || Type == SimpleRag
    }
  }

  /** A block's configuration as the context loader sees it. */
  datatype BlockConfig = BlockConfig(classes: seq<string>, usesDocuments: bool, hasRagSettings: bool)

  /** The message of the exception the block indexer raises. */
  function BlockNotFound(index: int): Error
  {
    IndexOutOfRange("Block at index " + IntToString(index) + " not found.")
  }

  /** The message names the index: two indices give the same exception only if they are equal. */
  lemma BlockNotFoundNamesIndex(i: int, j: int)
    requires BlockNotFound(i) == BlockNotFound(j)
    ensures i == j
  {
    var prefix := "Block at index ";
    var suffix := " not found.";
    var m := prefix + IntToString(i) + suffix;
    var n := prefix + IntToString(j) + suffix;
    assert m == n;
    assert IntToString(i) == m[|prefix|..|m| - |suffix|];
    assert IntToString(j) == n[|prefix|..|n| - |suffix|];
    IntToStringInjective(i, j);
  }

  /** The position of the first block with the given order. */
  function FirstWithOrder(blocks: seq<Block>, index: int): (r: Option<nat>)
    reads blocks`Order
    ensures r.Some? ==> r.value < |blocks| && blocks[r.value].Order == index
    ensures r.Some? ==> forall i :: 0 <= i < r.value ==> blocks[i].Order != index
    ensures r.None? ==> forall i :: 0 <= i < |blocks| ==> blocks[i].Order != index
  {
    if blocks == [] then None
    else if blocks[0].Order == index then Some(0)
    else match FirstWithOrder(blocks[1..], index)
      case None => None
      case Some(k) => Some(k + 1)
  }

  /** The blocks of the given workflows, workflow after workflow. */
  function BlocksOf(workflows: seq<Workflow>): (r: seq<Block>)
    reads workflows`Blocks
    ensures forall b :: b in r ==> exists w :: w in workflows && b in w.Blocks
    ensures forall w, b :: w in workflows && b in w.Blocks ==> b in r
  {
    if workflows == [] then []
    else
      var rest := BlocksOf(workflows[1..]);
      assert forall w :: w in workflows[1..] ==> w in workflows;
      assert forall w :: w in workflows ==> w == workflows[0] || w in workflows[1..];
      workflows[0].Blocks + rest
  }

  class Workflow {
    const Children: seq<Workflow>
    var Blocks: seq<Block>
    var AllPages: seq<Page>
    var Order: int
    const Parent: Workflow?
    var AllPagesTopics: Option<string>
    /** The length of the parent chain; it bounds `GetTopLevelWorkflow`'s loop. */
    ghost const Depth: nat
    /** The workflows of the subtree rooted here, this one included. */
    ghost const Nodes: set<Workflow>

    /** A new workflow: no children, blocks or pages, order 0, no parent, no topics. */
    constructor ()
      ensures Children == [] && Blocks == [] && AllPages == [] && Order == 0
      ensures Parent == null && AllPagesTopics == None
      ensures Valid() && ParentChainAcyclic()
    {
      Children := [];
      Blocks := [];
      AllPages := [];
      Order := 0;
      Parent := null;
      AllPagesTopics := None;
      Depth := 0;
      Nodes := {this};
    }

    /**
     * A workflow as it is read back from storage: its children and its parent
     * are fixed from then on (their setters are private and nothing in the
     * core changes them).
     */
    constructor Restored(children: seq<Workflow>, parent: Workflow?)
      requires forall c :: c in children ==> c.Valid()
      requires parent != null ==> parent.ParentChainAcyclic()
      ensures Children == children && Parent == parent
      ensures Blocks == [] && AllPages == [] && Order == 0 && AllPagesTopics == None
      ensures Valid() && ParentChainAcyclic()
    {
      Children := children;
      Blocks := [];
      AllPages := [];
      Order := 0;
      Parent := parent;
      AllPagesTopics := None;
      Depth := if parent == null then 0 else parent.Depth + 1;
      Nodes := {this} + set c, n | c in children && n in c.Nodes :: n;
    }

    /** The child relation is a finite tree below this workflow. */
    ghost predicate Valid()
      decreases Nodes
    {
      && Nodes == {this} + (set c, n | c in Children && n in c.Nodes :: n)
      && forall c :: c in Children ==> c in Nodes && c.Nodes <= Nodes && this !in c.Nodes && c.Valid()
    }

    /** The blocks of every workflow of the subtree. */
    ghost function SubtreeBlocks(): set<Block>
      reads this`Blocks, Nodes`Blocks
    {
      (set b | b in Blocks) + set w, b | w in Nodes && b in w.Blocks :: b
    }

    /** The parent chain ends. */
    ghost predicate ParentChainAcyclic()
      decreases Depth
    {
      Parent == null || (Parent.Depth < Depth && Parent.ParentChainAcyclic())
    }

    /** The last workflow of the parent chain. */
    ghost function Root(): Workflow
      requires ParentChainAcyclic()
      decreases Depth
    {
      if Parent == null then this else Parent.Root()
    }

    /** `workflow[index]`: the first block whose `Order` is `index`, or `IndexOutOfRangeException`. */
    function BlockAt(index: int): (r: Result<Block>)
      reads this`Blocks, Blocks`Order
      ensures r.Ok? ==> r.value in Blocks && r.value.Order == index
      ensures r.Ok? ==> exists k :: 0 <= k < |Blocks| && Blocks[k] == r.value &&
                          forall j :: 0 <= j < k ==> Blocks[j].Order != index
      ensures r.Err? <==> forall b :: b in Blocks ==> b.Order != index
      ensures r.Err? ==> r.error == BlockNotFound(index)
    {
      match FirstWithOrder(Blocks, index)
      case Some(k) =>
        Ok(Blocks[k])
      case None => Err(BlockNotFound(index))
    }

    /** Follows `Parent` until it is null. */
    method GetTopLevelWorkflow() returns (top: Workflow)
      requires ParentChainAcyclic()
      ensures top == Root() && top.Parent == null
      ensures Parent == null ==> top == this
    {
      top := this;
      while top.Parent != null
        invariant top.ParentChainAcyclic() && top.Root() == Root()
        decreases top.Depth
      {
        top := top.Parent;
      }
    }

    /** The blocks of this workflow followed by those of its direct children, in child order. */
    function TopAndChildBlocks(): (r: seq<Block>)
      reads this`Blocks, Children`Blocks
      ensures |Blocks| <= |r| && r[..|Blocks|] == Blocks
      ensures forall b :: b in r ==> b in Blocks || exists c :: c in Children && b in c.Blocks
      ensures forall c, b :: c in Children && b in c.Blocks ==> b in r
    {
      var r := Blocks + BlocksOf(Children);
      assert r[..|Blocks|] == Blocks;
      r
    }

    /** The top-level workflow's blocks and its direct children's blocks; deeper blocks are not included. */
    method GetAllBlocks() returns (blocks: seq<Block>)
      requires ParentChainAcyclic()
      ensures blocks == Root().TopAndChildBlocks()
    {
      var top := GetTopLevelWorkflow();
      blocks := top.Blocks + BlocksOf(top.Children);
    }

    /** Some retrieval setting of some block of the subtree has the given type. */
    predicate UsesRagType(t: RagType)
      requires Valid()
      reads this`Blocks, Nodes`Blocks
      reads (set w, b | w in Nodes && b in w.Blocks :: b)`RagSettings
      reads (set w, b, r | w in Nodes && b in w.Blocks && r in b.RagSettings :: r)`Type
      decreases Nodes
    {
      || (exists b, r :: b in Blocks && r in b.RagSettings && r.Type == t)
      || (exists c :: c in Children && c.UsesRagType(t))
    }
  }

  /**
   * `WorkflowUsesTopics` / `WorkflowUsesToc` recurse through the children;
   * what they compute is whether some block anywhere in the subtree has a
   * retrieval setting of the type.
   */
  lemma {:induction false} UsesRagTypeInSubtree(w: Workflow, t: RagType)
    requires w.Valid()
    ensures w.UsesRagType(t) <==> exists b, r :: b in w.SubtreeBlocks() && r in b.RagSettings && r.Type == t
    decreases w.Nodes
  {
    if w.UsesRagType(t) {
      if exists b, r :: b in w.Blocks && r in b.RagSettings && r.Type == t {
        var b, r :| b in w.Blocks && r in b.RagSettings && r.Type == t;
        assert b in w.SubtreeBlocks();
      } else {
        var c :| c in w.Children && c.UsesRagType(t);
        UsesRagTypeInSubtree(c, t);
        var b, r :| b in c.SubtreeBlocks() && r in b.RagSettings && r.Type == t;
        ChildSubtreeBlocks(w, c, b);
      }
    }
    if exists b, r :: b in w.SubtreeBlocks() && r in b.RagSettings && r.Type == t {
      var b, r :| b in w.SubtreeBlocks() && r in b.RagSettings && r.Type == t;
      if b !in w.Blocks {
        var n :| n in w.Nodes && b in n.Blocks;
        if n == w {
        } else {
          var c :| c in w.Children && n in c.Nodes;
          assert b in c.SubtreeBlocks();
          UsesRagTypeInSubtree(c, t);
        }
      }
    }
  }

  /** A block of a child's subtree is a block of the parent's subtree. */
  lemma ChildSubtreeBlocks(w: Workflow, c: Workflow, b: Block)
    requires w.Valid() && c in w.Children && b in c.SubtreeBlocks()
    ensures b in w.SubtreeBlocks()
  {
    if b in c.Blocks {
      assert c in w.Nodes;
    } else {
      var n :| n in c.Nodes && b in n.Blocks;
      assert n in w.Nodes;
    }
  }

  /** The top-level workflow is the last one on the chain: it has no parent. */
  lemma {:induction false} RootHasNoParent(w: Workflow)
    requires w.ParentChainAcyclic()
    ensures w.Root().Parent == null
    ensures w.Parent == null ==> w.Root() == w
    decreases w.Depth
  {
    if w.Parent != null {
      RootHasNoParent(w.Parent);
    }
  }
}
