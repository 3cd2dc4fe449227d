/**
 * The prompt `generate_site` sends (src-tauri/src/main.rs:51): the system
 * instructions, a fixed header, then the user's prompt.
 */
module Prompt {
  import opened Wrappers

  /** The text between the instructions and the user's prompt. */
  const Header: string := "\n\nUSER PROMPT:\n"

  /** `format!("{}\n\nUSER PROMPT:\n{}", instructions, user)`. */
  function ComposePrompt(instructions: string, user: string): (p: string)
    ensures |p| == |instructions| + |Header| + |user|
    ensures p[..|instructions|] == instructions
    ensures p[|instructions|..|instructions| + |Header|] == Header
    ensures p[|p| - |user|..] == user
  {
    instructions + Header + user
  }

  /** The user's prompt inside `p`, when `p` begins with the instructions and the header. */
  function UserPart(instructions: string, p: string): Option<string>
  {
    var n := |instructions| + |Header|;
    if n <= |p| && p[..n] == instructions + Header then Some(p[n..]) else None
  }

  /** Reading the user's prompt back recovers exactly the composed prompts and their user part. */
  lemma UserPartInverts(instructions: string, user: string, p: string)
    ensures UserPart(instructions, p) == Some(user) <==> p == ComposePrompt(instructions, user)
  {
    var n := |instructions| + |Header|;
    if p == ComposePrompt(instructions, user) {
      assert p[..n] == instructions + Header;
      assert p[n..] == user;
    }
    if UserPart(instructions, p) == Some(user) {
      assert p == p[..n] + p[n..];
    }
  }
}
