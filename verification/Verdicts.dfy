/** Verdicts of reports and of marks, and their sum.

  Safe and unsafe reports use the same rule with different codes: a report without marks has
  its own verdict, marks that disagree make the report "incompatible", and otherwise the report
  takes the verdict its marks share. One datatype covers both tables.
 */
module Verdicts {

  datatype Verdict = Assessed(code: nat) | Incompatible | WithoutMarks

  /** The sum of two verdicts, as the code adds one more verdict to an accumulated one. */
  function Plus(result: Verdict, verdict: Verdict): Verdict {
    if result == WithoutMarks then verdict
    else if verdict == WithoutMarks then result
    else if result != verdict then Incompatible
    else result
  }

  /** What the sum means, without any order: nobody speaks, all who speak agree, or a conflict. */
  ghost function Consensus(vs: set<Verdict>): Verdict {
    var voices := vs - {WithoutMarks};
    if voices == {} then WithoutMarks
    else var v :| v in voices; if voices == {v} then v else Incompatible
  }

  /** The variadic sum: a loop over the arguments that starts from "without marks". */
  method Sum(args: seq<Verdict>) returns (result: Verdict)
    ensures result == Consensus(set v | v in args)
  {
    result := WithoutMarks;
    for i := 0 to |args|
      invariant result == Consensus(set v | v in args[..i])
    {
      ConsensusGrows((set v | v in args[..i]), args[i]);
      result := Plus(result, args[i]);
      assert args[..i + 1] == args[..i] + [args[i]];
      assert (set v | v in args[..i] + [args[i]]) == (set v | v in args[..i]) + {args[i]};
    }
    assert args[..|args|] == args;
  }

  /** One more verdict moves the consensus exactly as Plus computes it. */
  lemma ConsensusGrows(vs: set<Verdict>, w: Verdict)
    ensures Consensus(vs + {w}) == Plus(Consensus(vs), w)
  {
    var before := vs - {WithoutMarks};
    var after := vs + {w} - {WithoutMarks};
    if w == WithoutMarks {
      assert before == after;
    } else if before == {} {
      assert after == {w};
    } else {
      var v :| v in before;
      assert after == before + {w} && v in after && w in after;
      if before == {v} {
        assert w == v ==> after == {v};
      } else {
        var x, y :| x in before && y in before && x != y;
        assert x in after && y in after;
      }
    }
  }
}
