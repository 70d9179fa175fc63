/** The Supabase project the pages talk to: the two tables, keyed by row id,
    and the log of requests made to the `send-gmail` edge function. Query
    and update outcomes are not decided here: each handler receives them as
    inputs. */
module Store {
  import opened Records
  import opened Html
  import opened Templates

  /** The payload of a mail request, `{to, subject, html}`, with the html
      kept as the template and arguments it is rendered from. */
  datatype EmailData = EmailData(to: string, subject: string, template: Template) {
    function HtmlText(): string {
      Render(Blocks(template))
    }
  }

  class Backend {
    var submissions: map<string, Submission>
    var reviewers: map<string, Reviewer>
    /** Every invocation of the edge function, in order. */
    var invocations: seq<EmailData>

    constructor (submissions: map<string, Submission>, reviewers: map<string, Reviewer>)
      ensures this.submissions == submissions && this.reviewers == reviewers
      ensures invocations == []
    {
      this.submissions := submissions;
      this.reviewers := reviewers;
      invocations := [];
    }
  }
}
