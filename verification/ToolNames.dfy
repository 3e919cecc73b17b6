/** Tool ids as function names of the model API: agent/llm/tool_adapter.py. */
module ToolNames {
  import opened Seqs
  import opened Text

  function ToLlmToolName(id: string): string { Replace(id, ".", "__") }

  function FromLlmToolName(name: string): string { Replace(name, "__", ".") }

  /** No underscore stands directly before another one or before a dot. */
  predicate Safe(id: string) {
    forall i :: 0 <= i < |id| - 1 && id[i] == '_' ==> id[i + 1] != '_' && id[i + 1] != '.'
  }

  lemma SafeTail(id: string)
    requires id != ""
    ensures Safe(id) <==> Safe(id[1..]) && !(id[0] == '_' && |id| > 1 && id[1] in "_.")
  {
    if Safe(id[1..]) {
      forall i | 0 < i < |id| - 1 && id[i] == '_' ensures id[i + 1] != '_' && id[i + 1] != '.' {
        assert id[1..][i - 1] == '_';
      }
    }
  }

  /** The name of an id, one character at a time. */
  lemma ToHead(id: string)
    requires id != ""
    ensures ToLlmToolName(id) == (if id[0] == '.' then "__" else [id[0]]) + ToLlmToolName(id[1..])
  {
    assert id[..1] == [id[0]];
  }

  lemma FromHead(name: string)
    requires name != ""
    ensures FromLlmToolName(name) ==
            if |name| > 1 && name[0] == '_' && name[1] == '_' then "." + FromLlmToolName(name[2..])
            else [name[0]] + FromLlmToolName(name[1..])
  {
    assert "__" <= name <==> |name| > 1 && name[0] == '_' && name[1] == '_';
  }

  lemma DropFront(front: string, rest: string)
    ensures (front + rest)[|front|..] == rest
  {
  }

  /** Decoding the name gives the id back exactly when the id is safe. */
  lemma {:induction false} RoundTripIff(id: string)
    ensures FromLlmToolName(ToLlmToolName(id)) == id <==> Safe(id)
  {
    if id != "" {
      var rest := id[1..];
      var name := ToLlmToolName(id);
      RoundTripIff(rest);
      SafeTail(id);
      ToHead(id);
      FromHead(name);
      HeadTail(id);
      if id[0] == '.' {
        DropFront("__", ToLlmToolName(rest));
      } else {
        DropFront([id[0]], ToLlmToolName(rest));
        if rest != "" { ToHead(rest); }
      }
    }
  }

  /** Safe ids never share a name. */
  lemma SafeNamesDiffer(a: string, b: string)
    requires Safe(a) && Safe(b) && ToLlmToolName(a) == ToLlmToolName(b)
    ensures a == b
  {
    RoundTripIff(a);
    RoundTripIff(b);
  }

  /** A name never has a dot, which the API forbids. */
  lemma {:induction false} NameHasNoDot(id: string)
    ensures '.' !in ToLlmToolName(id)
  {
    if id != "" {
      NameHasNoDot(id[1..]);
      ToHead(id);
    }
  }

  /** Encoding what a name decodes to gives the name back exactly when the name has no dot: no name the model
      may legally answer with is changed. */
  lemma {:induction false} NameRoundTripIff(name: string)
    ensures ToLlmToolName(FromLlmToolName(name)) == name <==> '.' !in name
    ensures |ToLlmToolName(FromLlmToolName(name))| >= |name|
    decreases |name|
  {
    if name != "" {
      FromHead(name);
      ToHead(FromLlmToolName(name));
      HeadTail(name);
      if |name| > 1 && name[0] == '_' && name[1] == '_' {
        NameRoundTripIff(name[2..]);
        DropFront(".", FromLlmToolName(name[2..]));
        assert name == "__" + name[2..];
      } else {
        NameRoundTripIff(name[1..]);
        DropFront([name[0]], FromLlmToolName(name[1..]));
      }
    }
  }

  lemma NameOfThree(id: string)
    requires |id| == 3 && id[0] != '.' && id[1] == '.' && id[2] != '.'
    ensures ToLlmToolName(id) == [id[0], '_', '_', id[2]]
  {
    ToHead(id);
    ToHead(id[1..]);
    ToHead(id[2..]);
  }

  lemma NameOfFour(id: string)
    requires |id| == 4 && forall i :: 0 <= i < 4 ==> id[i] != '.'
    ensures ToLlmToolName(id) == id
  {
    ToHead(id);
    ToHead(id[1..]);
    ToHead(id[2..]);
    ToHead(id[3..]);
  }

  /** Two ids with one name: the second reads back as the first. */
  lemma NamesCollide()
    ensures ToLlmToolName("a.b") == ToLlmToolName("a__b") && FromLlmToolName(ToLlmToolName("a__b")) != "a__b"
  {
    assert !Safe("a__b") by { assert "a__b"[1] == '_' && "a__b"[2] == '_'; }
    RoundTripIff("a__b");
    NameOfThree("a.b");
    NameOfFour("a__b");
  }
}
