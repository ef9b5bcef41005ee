/** The instruction text sent to the model: a fixed template with the center
    count, the location, the specialty list and one schema line per specialty
    interpolated verbatim (nothing is escaped). */
module Prompt {
  import opened Text

  /** `the top <n>`. */
  function CountText(numberOfCenters: string): string {
    "the top " + numberOfCenters
  }

  const RadiusClause := "within a 5km radius of the user's current location"

  /** The location clause: the quoted city when one is given, otherwise the
      5 km radius around the user. */
  function LocationText(city: string): (t: string)
    ensures city != "" ==> t == "in the city of \"" + city + "\""
    ensures city == "" ==> t == RadiusClause
  {
    if city != "" then "in the city of \"" + city + "\"" else RadiusClause
  }

  /** The schema line for one specialty, keyed by its lower-cased label. */
  function SchemaEntry(key: string): string {
    SchemaEntryHead + key + SchemaEntryTail
  }

  const SchemaEntryHead := "        \""
  const SchemaEntryTail := "\": [ { \"name\": \"string\", " + "\"address\": \"string\", " + "\"phone\": \"string\" } ]"

  function SchemaEntries(specialties: seq<string>): (r: seq<string>)
    ensures |r| == |specialties|
    ensures forall i :: 0 <= i < |specialties| ==> r[i] == SchemaEntry(ToLower(specialties[i]))
  {
    seq(|specialties|, i requires 0 <= i < |specialties| => SchemaEntry(ToLower(specialties[i])))
  }

  /** The `nearbySpecialists` body of the schema: the entries joined with ",\n". */
  function SpecialtiesJsonDefinition(specialties: seq<string>): string {
    Join(SchemaEntries(specialties), ",\n")
  }

  /** The first instruction: what to search for and where. */
  function SearchInstruction(numberOfCenters: string, city: string): string {
    "Search for " + CountText(numberOfCenters) + " diagnostic centers " + LocationText(city) + "."
  }

  const Intro :=
    "\n"
    + "    **Primary Goal:** Find diagnostic centers and nearby medical specialists, then format the output as a single JSON object.\n"
    + "\n"
    + "    **Instructions:**\n"
    + "    1.  **Find Diagnostic Centers:** "

  /** Instructions 2 to 4 and the schema up to the specialist entries: the
      fixed text around the comma-separated specialty list. */
  function Requirements(specialties: seq<string>): string {
    RequirementsHead + Join(specialties, ", ") + RequirementsTail
  }

  const RequirementsHead :=
    "\n"
    + "    2.  **Required Amenity:** Each center found MUST have a CT machine.\n"
    + "    3.  **Find Nearby Specialists (for each center):** For every diagnostic center you find, search for specialists within a 5km radius in these categories: "

  const RequirementsTail :=
    ".\n"
    + "    4.  **Handle Missing Specialists:** If you cannot find any specialists for a specific category at a center, you MUST return an empty array `[]` for that specialty.\n"
    + "\n"
    + "    **CRITICAL: Output Format**\n"
    + "    - Your entire response MUST be ONLY the JSON object. Do not include any other text, explanations, or markdown fences.\n"
    + "    - The JSON object must strictly follow this structure:\n"
    + "    {\n"
    + "      \"diagnosticCenters\": [\n"
    + "        {\n"
    + "          \"name\": \"string\",\n"
    + "          \"address\": \"string\",\n"
    + "          \"contactDetails\": {\n"
    + "            \"phone\": \"string\",\n"
    + "            \"website\": \"string\"\n"
    + "          },\n"
    + "          \"googleRating\": 4.5,\n"
    + "          \"userReviewSummary\": \"A brief summary of what people say in reviews.\",\n"
    + "          \"hasCTMachine\": true,\n"
    + "          \"nearbySpecialists\": {\n"

  const Closing :=
    "\n"
    + "          }\n"
    + "        }\n"
    + "      ]\n"
    + "    }\n"
    + "  "

  /** The whole prompt. Being a function, the same inputs always give the same text. */
  function BuildPrompt(city: string, numberOfCenters: string, specialties: seq<string>): string {
    Intro + SearchInstruction(numberOfCenters, city) + Requirements(specialties)
    + SpecialtiesJsonDefinition(specialties) + Closing
  }

  /** The prompt asks for `the top <n>` centers, in the quoted city when one
      is given and within 5 km of the user otherwise. */
  lemma PromptStatesCountAndLocation(city: string, numberOfCenters: string, specialties: seq<string>)
    ensures IsInfix("Search for " + CountText(numberOfCenters) + " diagnostic centers ", BuildPrompt(city, numberOfCenters, specialties))
    ensures IsInfix(LocationText(city), BuildPrompt(city, numberOfCenters, specialties))
  {
    var p := BuildPrompt(city, numberOfCenters, specialties);
    var instruction := SearchInstruction(numberOfCenters, city);
    InstructionInPrompt(city, numberOfCenters, specialties);
    var head := "Search for " + CountText(numberOfCenters) + " diagnostic centers ";
    var located := head + LocationText(city);
    InfixOfPrefix(located, ".");
    InfixOfPrefix(head, LocationText(city));
    InfixOfSuffix(head, LocationText(city));
    InfixTransitive(located, instruction, p);
    InfixTransitive(head, located, p);
    InfixTransitive(LocationText(city), located, p);
  }

  /** The second and fourth of five concatenated pieces are infixes of the whole. */
  lemma InfixesOfFive(a: string, b: string, c: string, d: string, e: string)
    ensures IsInfix(b, a + b + c + d + e) && IsInfix(d, a + b + c + d + e)
  {
    InfixOfSuffix(a, b);
    InfixOfPrefix(a + b, c);
    InfixOfPrefix(a + b + c, d);
    InfixOfSuffix(a + b + c, d);
    InfixOfPrefix(a + b + c + d, e);
    InfixTransitive(b, a + b, a + b + c);
    InfixTransitive(b, a + b + c, a + b + c + d);
    InfixTransitive(b, a + b + c + d, a + b + c + d + e);
    InfixTransitive(d, a + b + c + d, a + b + c + d + e);
  }

  /** The prompt holds the search instruction and, further on, the schema
      block of the specialists. */
  lemma InstructionInPrompt(city: string, numberOfCenters: string, specialties: seq<string>)
    ensures IsInfix(SearchInstruction(numberOfCenters, city), BuildPrompt(city, numberOfCenters, specialties))
    ensures IsInfix(SpecialtiesJsonDefinition(specialties), BuildPrompt(city, numberOfCenters, specialties))
  {
    InfixesOfFive(Intro, SearchInstruction(numberOfCenters, city), Requirements(specialties),
                  SpecialtiesJsonDefinition(specialties), Closing);
  }

  lemma EntryInDefinition(specialties: seq<string>, i: nat)
    requires i < |specialties|
    ensures IsInfix(SchemaEntry(ToLower(specialties[i])), SpecialtiesJsonDefinition(specialties))
  {
    var entries := SchemaEntries(specialties);
    JoinAt(entries, ",\n", i);
    var pre := Join(entries[..i], ",\n") + (if i > 0 then ",\n" else "");
    var post := if i + 1 < |entries| then ",\n" + Join(entries[i + 1..], ",\n") else "";
    InfixOfConcat(pre, entries[i], post);
  }

  /** Every requested specialty has its own schema line in the prompt, keyed
      by its lower-cased label. */
  lemma PromptHasSchemaEntry(city: string, numberOfCenters: string, specialties: seq<string>, i: nat)
    requires i < |specialties|
    ensures IsInfix(SchemaEntry(ToLower(specialties[i])), BuildPrompt(city, numberOfCenters, specialties))
  {
    InstructionInPrompt(city, numberOfCenters, specialties);
    EntryInDefinition(specialties, i);
    InfixTransitive(SchemaEntry(ToLower(specialties[i])), SpecialtiesJsonDefinition(specialties),
                    BuildPrompt(city, numberOfCenters, specialties));
  }

  /** The schema lines follow the request order: line `i` comes after the
      lines of the first `i` specialties and before the lines of the rest,
      separated by ",\n". */
  lemma SchemaInRequestOrder(specialties: seq<string>, i: nat)
    requires i < |specialties|
    ensures SpecialtiesJsonDefinition(specialties)
         == SpecialtiesJsonDefinition(specialties[..i]) + (if i > 0 then ",\n" else "")
            + SchemaEntry(ToLower(specialties[i]))
            + (if i + 1 < |specialties| then ",\n" + SpecialtiesJsonDefinition(specialties[i + 1..]) else "")
  {
    var entries := SchemaEntries(specialties);
    JoinAt(entries, ",\n", i);
    assert entries[..i] == SchemaEntries(specialties[..i]);
    assert entries[i + 1..] == SchemaEntries(specialties[i + 1..]);
  }
}
