/** The prompt builder `createItineraryPrompt`, which is character for character the same in
    `pages/api/generate-itinerary.ts` and `pages/api/GenAI.ts`: a fixed template with the trip
    parameters spliced in, an optional interests sentence, six content requirements and a
    description of the JSON shape the model must answer with. */
module ItineraryPrompt {
  import opened Text

  /** The validated parameters a prompt is built from; `interests` is already defaulted to `[]`. */
  datatype TripRequest = TripRequest(
    destination: string,
    duration: int,
    budget: int,
    travelerType: string,
    interests: seq<string>)

  const InterestsLead: string := "The traveler is particularly interested in: "

  /** The lines of the template that follow the interests sentence and a blank line: the six
      content requirements and the JSON shape, ending with the closing brace of that shape. */
  const InstructionLines: seq<string> := [
    "Please format the response as a detailed itinerary with:",
    "1. A day-by-day breakdown of activities",
    "2. Estimated costs for each activity where applicable",
    "3. Recommended accommodations that fit the budget",
    "4. Transportation suggestions between locations",
    "5. A budget breakdown by category (accommodation, food, transportation, activities)",
    "6. The total estimated cost of the trip",
    "",
    "Make sure the itinerary is realistic, takes into account local travel times, and fits within the specified budget.",
    "Return the response in JSON format with the following structure:",
    "{",
    "  \"destination\": string,",
    "  \"duration\": number,",
    "  \"budget\": number,",
    "  \"itinerary\": [",
    "    {",
    "      \"day\": number,",
    "      \"title\": string,",
    "      \"activities\": [",
    "        {",
    "          \"time\": string (optional),",
    "          \"activity\": string,",
    "          \"cost\": number (optional),",
    "          \"notes\": string (optional)",
    "        }",
    "      ]",
    "    }",
    "  ],",
    "  \"budgetBreakdown\": [",
    "    {",
    "      \"category\": string,",
    "      \"amount\": number,",
    "      \"details\": string",
    "    }",
    "  ],",
    "  \"totalCost\": number",
    "}"
  ]

  /** The template text after the interests sentence. */
  const Instructions: string := "\n\n" + Join(InstructionLines, "\n")

  /** The first line of the prompt (after the template's leading newline), with its newline. */
  function HeaderLine(t: TripRequest): string {
    "\nGenerate a detailed " + (IntToDecimal(t.duration) + ("-day travel itinerary for a "
    + (t.travelerType + (" traveler visiting " + (t.destination + (" with a budget of "
    + (("$" + IntToDecimal(t.budget)) + ".\n")))))))
  }

  /** The interests sentence: the entries joined by ", " in their order, or nothing at all when
      there are none. */
  function InterestsText(interests: seq<string>): (r: string)
    ensures r == [] <==> interests == []
    ensures interests != [] ==> OccursAt(r, Join(interests, ", "), |InterestsLead|)
  {
    if |interests| > 0 then InterestsLead + Join(interests, ", ") + "." else ""
  }

  /** The first of three parts can be read back from their concatenation, and an empty middle
      part leaves the other two side by side. */
  lemma ThreeParts(a: string, b: string, c: string)
    ensures (a + (b + c))[..|a|] == a
    ensures b == [] ==> a + (b + c) == a + c
  {
    assert b == [] ==> b + c == c;
  }

  /** The template is the header line and the interests sentence, then whatever follows them. */
  lemma TemplateParts(t: TripRequest, tail: string)
    ensures var n := |HeaderLine(t)| + |InterestsText(t.interests)|;
      && n <= |Template(t, tail)|
      && Template(t, tail)[..n] == HeaderLine(t) + InterestsText(t.interests)
      && Template(t, tail)[n..] == tail
  {
    var h, i := HeaderLine(t), InterestsText(t.interests);
    assert h + (i + tail) == (h + i) + tail;
  }

  /** `createItineraryPrompt`: the header line, the interests sentence, then the instructions.
      The trip parameters are spliced in verbatim; the rest is fixed text. */
  function CreateItineraryPrompt(t: TripRequest): (r: string)
    ensures |HeaderLine(t)| <= |r| && r[..|HeaderLine(t)|] == HeaderLine(t)
    ensures var n := |HeaderLine(t)| + |InterestsText(t.interests)|;
      && n <= |r|
      && r[..n] == HeaderLine(t) + InterestsText(t.interests)
      && r[n..] == Instructions
    ensures t.interests == [] ==> r == HeaderLine(t) + Instructions
  {
    TemplateParts(t, Instructions);
    ThreeParts(HeaderLine(t), InterestsText(t.interests), Instructions);
    Template(t, Instructions)
  }

  /** `x` sits at offset `|p|` of `p + (x + q)`. */
  lemma OccursBetween(p: string, x: string, q: string)
    ensures OccursAt(p + (x + q), x, |p|)
  {
    assert (p + (x + q))[|p|..|p| + |x|] == x;
  }

  /** Text that occurs in `s` still occurs once something is put before it. */
  lemma ContainsAfterPrefix(p: string, s: string, x: string)
    requires Contains(s, x)
    ensures Contains(p + s, x)
  {
    var i :| OccursAt(s, x, i);
    assert (p + s)[|p| + i..|p| + i + |x|] == s[i..i + |x|];
    assert OccursAt(p + s, x, |p| + i);
  }

  /** Text that occurs in `s` still occurs once something is put after it. */
  lemma ContainsBeforeSuffix(s: string, q: string, x: string)
    requires Contains(s, x)
    ensures Contains(s + q, x)
  {
    var i :| OccursAt(s, x, i);
    assert (s + q)[i..i + |x|] == s[i..i + |x|];
    assert OccursAt(s + q, x, i);
  }

  /** The header names the duration, the traveler type, the destination and "$" with the budget. */
  lemma HeaderMentionsRequest(t: TripRequest)
    ensures Contains(HeaderLine(t), IntToDecimal(t.duration))
    ensures Contains(HeaderLine(t), t.travelerType)
    ensures Contains(HeaderLine(t), t.destination)
    ensures Contains(HeaderLine(t), "$" + IntToDecimal(t.budget))
  {
    var b := "$" + IntToDecimal(t.budget);
    var r4 := b + ".\n";
    var r3 := " with a budget of " + r4;
    var r2 := t.destination + r3;
    var q2 := " traveler visiting " + r2;
    var r1 := t.travelerType + q2;
    var q1 := "-day travel itinerary for a " + r1;
    var r0 := IntToDecimal(t.duration) + q1;
    assert HeaderLine(t) == "\nGenerate a detailed " + r0;
    OccursBetween("\nGenerate a detailed ", IntToDecimal(t.duration), q1);
    OccursBetween("-day travel itinerary for a ", t.travelerType, q2);
    ContainsAfterPrefix(IntToDecimal(t.duration), q1, t.travelerType);
    ContainsAfterPrefix("\nGenerate a detailed ", r0, t.travelerType);
    OccursBetween(" traveler visiting ", t.destination, r3);
    ContainsAfterPrefix(t.travelerType, q2, t.destination);
    ContainsAfterPrefix("-day travel itinerary for a ", r1, t.destination);
    ContainsAfterPrefix(IntToDecimal(t.duration), q1, t.destination);
    ContainsAfterPrefix("\nGenerate a detailed ", r0, t.destination);
    OccursBetween(" with a budget of ", b, ".\n");
    ContainsAfterPrefix(t.destination, r3, b);
    ContainsAfterPrefix(" traveler visiting ", r2, b);
    ContainsAfterPrefix(t.travelerType, q2, b);
    ContainsAfterPrefix("-day travel itinerary for a ", r1, b);
    ContainsAfterPrefix(IntToDecimal(t.duration), q1, b);
    ContainsAfterPrefix("\nGenerate a detailed ", r0, b);
  }

  /** The prompt names the destination, the traveler type, the duration and, as "$<n>", the
      budget, each verbatim. */
  lemma PromptMentionsRequest(t: TripRequest)
    ensures Contains(CreateItineraryPrompt(t), t.destination)
    ensures Contains(CreateItineraryPrompt(t), t.travelerType)
    ensures Contains(CreateItineraryPrompt(t), IntToDecimal(t.duration))
    ensures Contains(CreateItineraryPrompt(t), "$" + IntToDecimal(t.budget))
  {
    var rest := InterestsText(t.interests) + Instructions;
    HeaderMentionsRequest(t);
    ContainsBeforeSuffix(HeaderLine(t), rest, t.destination);
    ContainsBeforeSuffix(HeaderLine(t), rest, t.travelerType);
    ContainsBeforeSuffix(HeaderLine(t), rest, IntToDecimal(t.duration));
    ContainsBeforeSuffix(HeaderLine(t), rest, "$" + IntToDecimal(t.budget));
  }

  /** Splicing `x` into a template between `h` and `tail` changes the text exactly when `x` is
      not empty. */
  lemma SpliceChangesIffNonEmpty(h: string, x: string, tail: string)
    ensures h + (x + tail) == h + ([] + tail) <==> x == []
  {
    if x != [] {
      assert |h + (x + tail)| > |h + ([] + tail)|;
    } else {
      assert x + tail == [] + tail;
    }
  }

  /** The prompt template with any text in place of the instructions. */
  function Template(t: TripRequest, tail: string): string {
    HeaderLine(t) + (InterestsText(t.interests) + tail)
  }

  /** Whatever follows it, the interests sentence is spliced in exactly when there are interests. */
  lemma TemplateInterestsIffNonEmpty(t: TripRequest, tail: string)
    ensures Template(t, tail) == Template(t.(interests := []), tail) <==> t.interests == []
    ensures t.interests != [] ==>
      Contains(Template(t, tail), InterestsLead + Join(t.interests, ", ") + ".")
  {
    var t0 := t.(interests := []);
    assert HeaderLine(t0) == HeaderLine(t);
    SpliceChangesIffNonEmpty(HeaderLine(t), InterestsText(t.interests), tail);
    OccursBetween(HeaderLine(t), InterestsText(t.interests), tail);
  }

  /** The interests sentence appears exactly when there are interests: the prompt equals the
      prompt built without interests if and only if the list is empty, and otherwise it holds the
      sentence listing every interest, in order, separated by ", ". */
  lemma InterestsSentenceIffNonEmpty(t: TripRequest)
    ensures CreateItineraryPrompt(t) == CreateItineraryPrompt(t.(interests := [])) <==> t.interests == []
    ensures t.interests != [] ==>
      Contains(CreateItineraryPrompt(t), InterestsLead + Join(t.interests, ", ") + ".")
  {
    TemplateInterestsIffNonEmpty(t, Instructions);
  }

  /** The element at index `i` of `xs` starts at this offset in `Join(xs, sep)`. */
  function JoinOffset(xs: seq<string>, sep: string, i: nat): nat
    requires i <= |xs|
  {
    if i == 0 then 0 else |xs[0]| + |sep| + JoinOffset(xs[1..], sep, i - 1)
  }

  /** Every interest appears in the joined list, each after the one before it: the join keeps the
      interests in their order, separated by the separator. */
  lemma {:induction false} JoinKeepsOrder(xs: seq<string>, sep: string, i: nat)
    requires i < |xs|
    ensures OccursAt(Join(xs, sep), xs[i], JoinOffset(xs, sep, i))
    ensures i + 1 < |xs| ==> JoinOffset(xs, sep, i) + |xs[i]| + |sep| == JoinOffset(xs, sep, i + 1)
  {
    if |xs| == 1 {
    } else if i == 0 {
      OccursBetween([], xs[0], sep + Join(xs[1..], sep));
      assert Join(xs, sep) == [] + xs[0] + (sep + Join(xs[1..], sep));
    } else {
      JoinKeepsOrder(xs[1..], sep, i - 1);
      var p := xs[0] + sep;
      var j := Join(xs[1..], sep);
      var o := JoinOffset(xs[1..], sep, i - 1);
      assert Join(xs, sep) == p + j;
      assert (p + j)[|p| + o..|p| + o + |xs[i]|] == j[o..o + |xs[i]|];
    }
  }
}
