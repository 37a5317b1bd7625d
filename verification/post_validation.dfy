/** The create-post request schema of the post service: `content` is a
    required string of 3 to 4000 UTF-16 code units, `mediaIds` an optional array of
    anything, and no other key is allowed. */
module PostValidation {
  import opened Json

  const ContentMin: nat := 3
  const ContentMax: nat := 4000

  predicate ValidCreatePost(body: Body)
  {
    && OnlyKeys(body, {"content", "mediaIds"})
    && RequiredStringWithin(body, "content", ContentMin, ContentMax)
    && ("mediaIds" in body ==> body["mediaIds"].Array?)
  }

  /** A body holding only `content` is accepted exactly when the content is a
      string whose length lies in 3..4000, both ends included. */
  lemma ContentOnlyBody(content: Value)
    ensures ValidCreatePost(map["content" := content])
        <==> content.Str? && 3 <= Utf16Length(content.s) <= 4000
  {
  }

  /** Plain text (no character beyond the Basic Multilingual Plane) may have
      3 to 4000 characters. */
  lemma BmpContentLimit(content: string)
    requires forall i :: 0 <= i < |content| ==> content[i] as int < 0x10000
    ensures ValidCreatePost(map["content" := Str(content)]) <==> 3 <= |content| <= 4000
  {
    BmpLength(content);
  }

  /** Each emoji takes two units, so content made of emoji may have only 2 to
      2000 of them. */
  lemma AstralContentLimit(content: string)
    requires forall i :: 0 <= i < |content| ==> content[i] as int >= 0x10000
    ensures ValidCreatePost(map["content" := Str(content)]) <==> 2 <= |content| <= 2000
  {
    AstralLength(content);
  }

  /** Without a string `content` nothing is accepted. */
  lemma ContentRequired(body: Body)
    requires "content" !in body || !body["content"].Str?
    ensures !ValidCreatePost(body)
  {
  }

  /** `mediaIds` may be any array, whatever its elements are, but nothing
      other than an array. */
  lemma MediaIdsAnyArray(content: string, mediaIds: Value)
    requires 3 <= Utf16Length(content) <= 4000
    ensures ValidCreatePost(map["content" := Str(content), "mediaIds" := mediaIds])
        <==> mediaIds.Array?
  {
  }

  /** A key outside the schema makes the body invalid. */
  lemma UnknownKeyRejected(body: Body, key: string)
    requires key in body && key != "content" && key != "mediaIds"
    ensures !ValidCreatePost(body)
  {
  }
}
