/** The location chain of a YAML traversal (`serde_yml::modules::path::Path`) and its
    `Display` rendering, the text reported in front of a decoding error. */
module PathChain {
  import opened RustTypes
  import opened Decimal

  /** A location, linked backwards to the location it was entered from. The Rust enum borrows
      its parent; as a value the chain is the same tree, and derived equality is structural. */
  datatype Path =
    | Root
    | Seq(parent: Path, index: USize)
    | Map(parent: Path, key: string)
    | Alias(parent: Path)
    | Unknown(parent: Path)

  /** One nesting step a traversal takes: the payload of a non-root variant. */
  datatype Step = SeqStep(index: USize) | MapStep(key: string) | AliasStep | UnknownStep

  /** The construction a traversal performs when it enters a step below `parent`. */
  function Child(parent: Path, step: Step): (p: Path)
    ensures !p.Root? && p.parent == parent
    ensures Steps(p) == Steps(parent) + [step]
  {
    match step
    case SeqStep(i) => Seq(parent, i)
    case MapStep(k) => Map(parent, k)
    case AliasStep => Alias(parent)
    case UnknownStep => Unknown(parent)
  }

  /** The step that produced a non-root node. */
  function LastStep(p: Path): Step
    requires !p.Root?
  {
    match p
    case Seq(_, i) => SeqStep(i)
    case Map(_, k) => MapStep(k)
    case Alias(_) => AliasStep
    case Unknown(_) => UnknownStep
  }

  /** The steps from the root outward to `p`. */
  function Steps(p: Path): seq<Step> {
    if p.Root? then [] else Steps(p.parent) + [LastStep(p)]
  }

  /** `p` extended outward by `s`, one `Child` per step. */
  function Extend(p: Path, s: seq<Step>): Path {
    if s == [] then p else Child(Extend(p, s[..|s| - 1]), s[|s| - 1])
  }

  /** Extending a chain appends the new steps behind the old ones. */
  lemma {:induction false} StepsOfExtend(p: Path, s: seq<Step>)
    ensures Steps(Extend(p, s)) == Steps(p) + s
    decreases |s|
  {
    if s != [] {
      StepsOfExtend(p, s[..|s| - 1]);
      assert s == s[..|s| - 1] + [s[|s| - 1]];
    }
  }

  /** Every chain is the root extended by its own steps: `Root` is its one innermost ancestor. */
  lemma {:induction false} ChainFromRoot(p: Path)
    ensures Extend(Root, Steps(p)) == p
  {
    if !p.Root? {
      ChainFromRoot(p.parent);
      var s := Steps(p);
      assert s[..|s| - 1] == Steps(p.parent);
    }
  }

  /** Structural equality: two chains are equal exactly when they took the same steps
      with the same payloads at every depth. */
  lemma StructuralEquality(p: Path, q: Path)
    ensures p == q <==> Steps(p) == Steps(q)
  {
    ChainFromRoot(p);
    ChainFromRoot(q);
  }

  /** What a node contributes when it is the parent of another node: nothing for the root,
      otherwise its own rendering followed by the separator. */
  function Ancestor(parent: Path): (r: string)
    ensures r == "" <==> parent.Root?
    ensures !parent.Root? ==> r[|r| - 1] == '.'
    decreases parent, 1
  {
    if parent.Root? then "" else Render(parent) + "."
  }

  /** `Display for Path`. */
  function Render(p: Path): string
    decreases p, 0
  {
    match p
    case Root => "."
    case Seq(parent, index) => Ancestor(parent) + "\\[" + NatToDecimal(index) + "\\]"
    case Map(parent, key) => Ancestor(parent) + key
    case Alias(parent) => Ancestor(parent)
    case Unknown(parent) => Ancestor(parent) + "?"
  }

  /** The text one step adds after the separator. */
  function Token(step: Step): string {
    match step
    case SeqStep(i) => "\\[" + NatToDecimal(i) + "\\]"
    case MapStep(k) => k
    case AliasStep => ""
    case UnknownStep => "?"
  }

  function Tokens(s: seq<Step>): (ts: seq<string>)
    ensures |ts| == |s| && forall i :: 0 <= i < |s| ==> ts[i] == Token(s[i])
  {
    if s == [] then [] else Tokens(s[..|s| - 1]) + [Token(s[|s| - 1])]
  }

  /** The tokens separated by single dots. */
  function JoinDots(ts: seq<string>): string {
    if ts == [] then "" else if |ts| == 1 then ts[0] else JoinDots(ts[..|ts| - 1]) + "." + ts[|ts| - 1]
  }

  /** The separator rule, uniform over every kind of child: a root parent adds nothing, any
      other parent adds its own rendering and one dot, then the step's own text follows. */
  lemma ChildRendering(parent: Path, step: Step)
    ensures Render(Child(parent, step)) == (if parent.Root? then "" else Render(parent) + ".") + Token(step)
  {
  }

  /** Reference definition: a non-root chain renders as the tokens of its steps, from the root
      outward, joined by dots; the root alone renders as ".". */
  lemma {:induction false} RenderJoinsTokens(p: Path)
    ensures Render(p) == if p.Root? then "." else JoinDots(Tokens(Steps(p)))
  {
    if !p.Root? {
      var parent, step := p.parent, LastStep(p);
      assert p == Child(parent, step);
      ChildRendering(parent, step);
      var ts := Tokens(Steps(p));
      if parent.Root? {
        assert ts == [Token(step)];
      } else {
        RenderJoinsTokens(parent);
        assert Steps(p) == Steps(parent) + [step];
        assert |Steps(parent)| > 0;
        assert ts[..|ts| - 1] == Tokens(Steps(parent));
      }
    }
  }

  /** A deeper error location starts with the rendering of every non-root ancestor followed
      by a dot: rendering grows append-only as the traversal descends. */
  lemma {:induction false} RenderExtendsAncestor(p: Path, s: seq<Step>)
    requires !p.Root? && s != []
    ensures Render(p) + "." <= Render(Extend(p, s))
    decreases |s|
  {
    var init, step := s[..|s| - 1], s[|s| - 1];
    var q := Extend(p, init);
    ChildRendering(q, step);
    if init != [] {
      RenderExtendsAncestor(p, init);
      assert Render(q) + "." <= Render(Extend(p, s));
    }
  }

  /** Each variant directly under the root. */
  lemma UnderRoot(index: USize, key: string)
    ensures Render(Root) == "."
    ensures Render(Seq(Root, index)) == "\\[" + NatToDecimal(index) + "\\]"
    ensures Render(Map(Root, key)) == key
    ensures Render(Alias(Root)) == ""
    ensures Render(Unknown(Root)) == "?"
  {
  }

  /** The small indices the tests render directly under the root. */
  lemma SeqIndexExamples()
    ensures Render(Seq(Root, 0)) == "\\[0\\]"
    ensures Render(Seq(Root, 42)) == "\\[42\\]"
    ensures Render(Seq(Root, 100)) == "\\[100\\]"
  {
    AppendDigit(4, 2);
    AppendDigit(1, 0);
    AppendDigit(10, 0);
  }

  /** The largest index, `usize::MAX`, renders with all twenty digits. */
  lemma SeqLargeIndexExample()
    ensures Render(Seq(Root, USIZE_MAX)) == "\\[18446744073709551615\\]"
  {
    var digits := NatToDecimal(USIZE_MAX);
    UsizeMaxDecimal();
    assert digits == "18446744073709551615";
    assert Render(Seq(Root, USIZE_MAX)) == "\\[" + digits + "\\]";
    assert "\\[" + "18446744073709551615" + "\\]" == "\\[18446744073709551615\\]";
  }

  /** The keys the tests render directly under the root: verbatim, the empty key included. */
  lemma MapKeyExamples()
    ensures Render(Map(Root, "key")) == "key"
    ensures Render(Map(Root, "")) == ""
    ensures Render(Map(Root, "special_key")) == "special_key"
    ensures Render(Map(Root, "123")) == "123"
  {
  }

  /** One non-root parent: its rendering and a dot come first, even before a bracket. */
  lemma ParentExamples()
    ensures Render(Seq(Seq(Root, 1), 42)) == "\\[1\\].\\[42\\]"
    ensures Render(Map(Seq(Root, 1), "key")) == "\\[1\\].key"
    ensures Render(Alias(Map(Root, "parent_key"))) == "parent_key."
    ensures Render(Unknown(Map(Root, "parent_key"))) == "parent_key.?"
  {
    AppendDigit(4, 2);
  }

  /** Root, Seq 0, Map "key", Alias, Unknown: the alias parent yields the doubled dot. */
  lemma NestedExample()
    ensures Render(Unknown(Alias(Map(Seq(Root, 0), "key")))) == "\\[0\\].key..?"
  {
    var seq0 := Seq(Root, 0);
    var mapped := Map(seq0, "key");
    var alias := Alias(mapped);
    assert Render(seq0) == "\\[0\\]";
    assert Render(mapped) == "\\[0\\].key";
    assert Render(alias) == "\\[0\\].key.";
  }

  /** Root, Seq 1, Map "first", Seq 2, Map "second", Alias, Unknown. */
  lemma DeeplyNestedExample()
    ensures Render(Unknown(Alias(Map(Seq(Map(Seq(Root, 1), "first"), 2), "second"))))
         == "\\[1\\].first.\\[2\\].second..?"
  {
    var seq1 := Seq(Root, 1);
    var map1 := Map(seq1, "first");
    var seq2 := Seq(map1, 2);
    var map2 := Map(seq2, "second");
    var alias := Alias(map2);
    assert Render(seq1) == "\\[1\\]";
    assert Render(map1) == "\\[1\\].first";
    assert Render(seq2) == "\\[1\\].first.\\[2\\]";
    assert Render(map2) == "\\[1\\].first.\\[2\\].second";
    assert Render(alias) == "\\[1\\].first.\\[2\\].second.";
  }

  /** Root, Seq 1, Map "key", Seq 99: a dot separates the key from the next bracket. */
  lemma ComplexNestedExample()
    ensures Render(Seq(Map(Seq(Root, 1), "key"), 99)) == "\\[1\\].key.\\[99\\]"
  {
    AppendDigit(9, 9);
    var seq1 := Seq(Root, 1);
    var mapped := Map(seq1, "key");
    assert Render(seq1) == "\\[1\\]";
    assert Render(mapped) == "\\[1\\].key";
  }
}
