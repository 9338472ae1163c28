/**
 * The shared report of one `validate` run, seen through the two operations the
 * dispatcher relies on: validators append findings to it, and it is rendered
 * once per configured format. How findings are formatted is not modelled.
 */
module Reports {
  import opened Types

  /** One rendering: the format it went to and the findings it rendered. */
  datatype Rendering = Rendering(format: Format, findings: seq<Finding>)

  /** Rendering the same findings to each format in turn. */
  function RenderingsOf(formats: seq<Format>, findings: seq<Finding>): (r: seq<Rendering>)
    ensures |r| == |formats|
    ensures forall i :: 0 <= i < |formats| ==> r[i] == Rendering(formats[i], findings)
  {
    seq(|formats|, i requires 0 <= i < |formats| => Rendering(formats[i], findings))
  }

  class Report {
    /** Findings recorded so far, in the order they were appended. */
    var findings: seq<Finding>
    /** Every rendering done so far, in order. */
    var renders: seq<Rendering>

    constructor ()
      ensures findings == [] && renders == []
    {
      findings := [];
      renders := [];
    }

    /** A validator records its findings. */
    method Add(fs: seq<Finding>)
      modifies this
      ensures findings == old(findings) + fs
      ensures renders == old(renders)
    {
      findings := findings + fs;
    }

    /** Renders the report to one format; the findings are only read. */
    method Render(format: Format)
      modifies this
      ensures findings == old(findings)
      ensures renders == old(renders) + [Rendering(format, findings)]
    {
      renders := renders + [Rendering(format, findings)];
    }
  }
}
