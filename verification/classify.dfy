/**
  The substring classifier both AI tools apply to an error message to decide
  whether the failure calls for a new API key (an "auth" failure) or is shown
  as a generic error. The enhancer and the background remover use different
  pattern lists.
 */
module Classify {
  import Text

  /** The enhancer's patterns, matched against the lower-cased message. */
  const EnhancerPatterns: seq<string> :=
    ["permission denied", "api key", "requested entity was not found", "403", "not found"]

  /** The background remover's patterns: the same list without bare "not found". */
  const RemoverPatterns: seq<string> :=
    ["permission denied", "api key", "requested entity was not found", "403"]

  /** The message the enhancer throws when a response holds no image part
      (written in short pieces, which the proofs below examine one by one). */
  const EnhancerNoImageMessage: string :=
    "The AI engine " + "failed to return" + " an enhanced" + " image part."

  /** The message the background remover throws when a response holds no image part. */
  const RemoverNoImageMessage: string := "No " + "processed image" + " returned from AI."

  /** `patterns[0] || patterns[1] || ...` of `text.includes(p)`. */
  function MatchesAny(text: string, patterns: seq<string>): (b: bool)
    ensures b <==> exists i :: 0 <= i < |patterns| && Text.Contains(text, patterns[i])
  {
    if patterns == [] then false
    else Text.Contains(text, patterns[0]) || MatchesAny(text, patterns[1..])
  }

  predicate IsEnhancerAuthError(message: string) {
    MatchesAny(Text.Lower(message), EnhancerPatterns)
  }

  predicate IsRemoverAuthError(message: string) {
    MatchesAny(Text.Lower(message), RemoverPatterns)
  }

  /** The enhancer treats a message as auth exactly when the lower-cased message
      contains one of its five phrases. */
  lemma EnhancerAuthPhrases(message: string)
    ensures IsEnhancerAuthError(message) <==>
      var m := Text.Lower(message);
      Text.Contains(m, "permission denied") || Text.Contains(m, "api key") ||
      Text.Contains(m, "requested entity was not found") || Text.Contains(m, "403") ||
      Text.Contains(m, "not found")
  {
    var ps := EnhancerPatterns;
    assert ps[0] == "permission denied" && ps[1] == "api key";
    assert ps[2] == "requested entity was not found" && ps[3] == "403" && ps[4] == "not found";
  }

  /** The remover treats a message as auth exactly when the lower-cased message
      contains one of its four phrases. */
  lemma RemoverAuthPhrases(message: string)
    ensures IsRemoverAuthError(message) <==>
      var m := Text.Lower(message);
      Text.Contains(m, "permission denied") || Text.Contains(m, "api key") ||
      Text.Contains(m, "requested entity was not found") || Text.Contains(m, "403")
  {
    var ps := RemoverPatterns;
    assert ps[0] == "permission denied" && ps[1] == "api key";
    assert ps[2] == "requested entity was not found" && ps[3] == "403";
  }

  /** The two classifiers differ by exactly one pattern: the enhancer's is the
      remover's plus a bare "not found". */
  lemma EnhancerIsRemoverPlusNotFound(message: string)
    ensures IsEnhancerAuthError(message) <==>
      IsRemoverAuthError(message) || Text.Contains(Text.Lower(message), "not found")
  {
    EnhancerAuthPhrases(message);
    RemoverAuthPhrases(message);
  }

  /** Case never matters: classifying a message or its lower-cased form agrees. */
  lemma ClassifiersIgnoreCase(message: string)
    ensures IsEnhancerAuthError(message) == IsEnhancerAuthError(Text.Lower(message))
    ensures IsRemoverAuthError(message) == IsRemoverAuthError(Text.Lower(message))
  {
    Text.LowerIdempotent(message);
  }

  /** The enhancer "no image" message has no 's' in either case ... */
  lemma EnhancerNoImageLacksS()
    ensures 's' !in EnhancerNoImageMessage && 'S' !in EnhancerNoImageMessage
  {
  }

  /** ... no 'y' in either case and no '4' ... */
  lemma EnhancerNoImageLacksY4()
    ensures 'y' !in EnhancerNoImageMessage && 'Y' !in EnhancerNoImageMessage
    ensures '4' !in EnhancerNoImageMessage
  {
  }

  /** ... and a single 'f', in either case, at index 14, with 'i' at index 10. */
  lemma EnhancerNoImageAnchor()
    ensures EnhancerNoImageMessage == "The AI engine " + "f" + ("ailed to return" + " an enhanced" + " image part.")
    ensures 'f' !in "The AI engine " && 'F' !in "The AI engine "
    ensures EnhancerNoImageMessage[10] == 'i'
  {
    assert "failed to return" == "f" + "ailed to return";
  }

  lemma EnhancerNoImageTail()
    ensures var post := "ailed to return" + " an enhanced" + " image part.";
      'f' !in post && 'F' !in post
  {
  }

  /** What lower-casing keeps of a message shaped like the enhancer's: the
      missing characters stay missing and the single 'f' stays single. */
  lemma EnhancerShapeLowered(message: string, pre: string, post: string)
    requires message == pre + "f" + post && |pre| == 14 && message[10] == 'i'
    requires 's' !in message && 'S' !in message && 'y' !in message && 'Y' !in message && '4' !in message
    requires 'f' !in pre && 'F' !in pre && 'f' !in post && 'F' !in post
    ensures var m := Text.Lower(message);
      's' !in m && 'y' !in m && '4' !in m &&
      |m| > 14 && m[14] == 'f' && 'f' !in m[..14] && 'f' !in m[15..] && m[10] == 'i'
  {
    Text.LowerAbsent(message, 's', 'S');
    Text.LowerAbsent(message, 'y', 'Y');
    Text.LowerAbsent(message, '4', '4');
    Text.LowerAbsent(pre, 'f', 'F');
    Text.LowerAbsent(post, 'f', 'F');
    Text.LowerAppend(pre + "f", post);
    Text.LowerAppend(pre, "f");
    var m := Text.Lower(message);
    assert m[..14] == Text.Lower(pre);
    assert m[15..] == Text.Lower(post);
  }

  /** A lower-cased message shaped like the enhancer's "no image" message holds
      none of the enhancer's phrases. */
  lemma EnhancerPhrasesAbsent(m: string)
    requires 's' !in m && 'y' !in m && '4' !in m
    requires |m| > 14 && m[14] == 'f' && 'f' !in m[..14] && 'f' !in m[15..] && m[10] == 'i'
    ensures !Text.Contains(m, "permission denied") && !Text.Contains(m, "api key")
    ensures !Text.Contains(m, "requested entity was not found") && !Text.Contains(m, "403")
    ensures !Text.Contains(m, "not found")
  {
    Text.AbsentChar(m, "permission denied", 's');
    Text.AbsentChar(m, "api key", 'y');
    Text.AbsentChar(m, "requested entity was not found", 's');
    Text.AbsentChar(m, "403", '4');
    // "not found" could only start four characters before the one 'f'.
    assert m == m[..14] + ['f'] + m[15..];
    Text.AnchoredAbsence(m, "not found", m[..14], m[15..], 4, 0);
  }

  /** The enhancer's own "no image part" message is not an auth failure, so it
      ends in the generic `Processing failed:` branch. */
  lemma EnhancerNoImageIsNotAuth()
    ensures !IsEnhancerAuthError(EnhancerNoImageMessage)
  {
    EnhancerNoImageLacksS();
    EnhancerNoImageLacksY4();
    EnhancerNoImageAnchor();
    EnhancerNoImageTail();
    EnhancerShapeLowered(EnhancerNoImageMessage, "The AI engine ", "ailed to return" + " an enhanced" + " image part.");
    EnhancerPhrasesAbsent(Text.Lower(EnhancerNoImageMessage));
    EnhancerAuthPhrases(EnhancerNoImageMessage);
  }

  /** The remover "no image" message has no 'y' in either case and no '4' ... */
  lemma RemoverNoImageLacksY4()
    ensures 'y' !in RemoverNoImageMessage && 'Y' !in RemoverNoImageMessage
    ensures '4' !in RemoverNoImageMessage
  {
  }

  /** ... no 'q' in either case ... */
  lemma RemoverNoImageLacksQ()
    ensures 'q' !in RemoverNoImageMessage && 'Q' !in RemoverNoImageMessage
  {
  }

  /** ... and a single 'p', in either case, at index 3, followed by 'r'. */
  lemma RemoverNoImageAnchor()
    ensures RemoverNoImageMessage == "No " + "p" + ("rocessed image" + " returned from AI.")
    ensures 'p' !in "No " && 'P' !in "No " && RemoverNoImageMessage[4] == 'r'
    ensures var post := "rocessed image" + " returned from AI.";
      'p' !in post && 'P' !in post
  {
    assert "processed image" == "p" + "rocessed image";
  }

  /** What lower-casing keeps of a message shaped like the remover's. */
  lemma RemoverShapeLowered(message: string, pre: string, post: string)
    requires message == pre + "p" + post && |pre| == 3 && |post| >= 1 && message[4] == 'r'
    requires 'y' !in message && 'Y' !in message && 'q' !in message && 'Q' !in message && '4' !in message
    requires 'p' !in pre && 'P' !in pre && 'p' !in post && 'P' !in post
    ensures var m := Text.Lower(message);
      'y' !in m && 'q' !in m && '4' !in m &&
      |m| > 4 && m[3] == 'p' && 'p' !in m[..3] && 'p' !in m[4..] && m[4] == 'r'
  {
    Text.LowerAbsent(message, 'y', 'Y');
    Text.LowerAbsent(message, 'q', 'Q');
    Text.LowerAbsent(message, '4', '4');
    Text.LowerAbsent(pre, 'p', 'P');
    Text.LowerAbsent(post, 'p', 'P');
    Text.LowerAppend(pre + "p", post);
    Text.LowerAppend(pre, "p");
    var m := Text.Lower(message);
    assert m[..3] == Text.Lower(pre);
    assert m[4..] == Text.Lower(post);
  }

  /** A lower-cased message shaped like the remover's "no image" message holds
      none of the remover's phrases. */
  lemma RemoverPhrasesAbsent(m: string)
    requires 'y' !in m && 'q' !in m && '4' !in m
    requires |m| > 4 && m[3] == 'p' && 'p' !in m[..3] && 'p' !in m[4..] && m[4] == 'r'
    ensures !Text.Contains(m, "permission denied") && !Text.Contains(m, "api key")
    ensures !Text.Contains(m, "requested entity was not found") && !Text.Contains(m, "403")
  {
    Text.AbsentChar(m, "api key", 'y');
    Text.AbsentChar(m, "requested entity was not found", 'q');
    Text.AbsentChar(m, "403", '4');
    // "permission denied" could only start at the one 'p', which is followed by 'r'.
    assert m == m[..3] + ['p'] + m[4..];
    Text.AnchoredAbsence(m, "permission denied", m[..3], m[4..], 0, 1);
  }

  /** The remover's own "no image" message is not an auth failure, so it ends
      in the generic `AI Error:` branch. */
  lemma RemoverNoImageIsNotAuth()
    ensures !IsRemoverAuthError(RemoverNoImageMessage)
  {
    RemoverNoImageLacksY4();
    RemoverNoImageLacksQ();
    RemoverNoImageAnchor();
    RemoverShapeLowered(RemoverNoImageMessage, "No ", "rocessed image" + " returned from AI.");
    RemoverPhrasesAbsent(Text.Lower(RemoverNoImageMessage));
    RemoverAuthPhrases(RemoverNoImageMessage);
  }

  /** A message ending in a capital-free phrase still contains that phrase
      once lower-cased. */
  lemma LowerKeepsTail(message: string, pre: string, phrase: string)
    requires message == pre + phrase
    requires forall c :: 'A' <= c <= 'Z' ==> c !in phrase
    ensures Text.Contains(Text.Lower(message), phrase)
  {
    Text.LowerHead(message, pre, phrase, Text.Lower(pre));
    assert Text.Lower(message) == Text.Lower(pre) + phrase + "";
    Text.OccursBetween(Text.Lower(pre), phrase, "");
  }

  /** "Model not found" ends in "not found" ... */
  lemma ModelNotFoundTail(message: string)
    requires message == "Model not found"
    ensures Text.Contains(Text.Lower(message), "not found")
  {
    LowerKeepsTail(message, "Model ", "not found");
  }

  /** ... and has no 'p', 'y', 'q' or '4' in either case. */
  lemma ModelNotFoundLacks(message: string)
    requires message == "Model not found"
    ensures 'p' !in message && 'P' !in message && 'y' !in message && 'Y' !in message
    ensures 'q' !in message && 'Q' !in message && '4' !in message
  {
  }

  /** A message with no 'p', 'y', 'q' or '4', in either case, holds none of the
      remover's phrases once lower-cased. */
  lemma RemoverPhrasesLacking(message: string)
    requires 'p' !in message && 'P' !in message && 'y' !in message && 'Y' !in message
    requires 'q' !in message && 'Q' !in message && '4' !in message
    ensures var m := Text.Lower(message);
      !Text.Contains(m, "permission denied") && !Text.Contains(m, "api key") &&
      !Text.Contains(m, "requested entity was not found") && !Text.Contains(m, "403")
  {
    var m := Text.Lower(message);
    Text.LowerAbsent(message, 'p', 'P');
    Text.LowerAbsent(message, 'y', 'Y');
    Text.LowerAbsent(message, 'q', 'Q');
    Text.LowerAbsent(message, '4', '4');
    Text.AbsentChar(m, "permission denied", 'p');
    Text.AbsentChar(m, "api key", 'y');
    Text.AbsentChar(m, "requested entity was not found", 'q');
    Text.AbsentChar(m, "403", '4');
  }

  /** A message whose only phrase is a bare "not found" is auth for the
      enhancer and not for the remover. */
  lemma BareNotFoundSplitsClassifiers(message: string)
    requires var m := Text.Lower(message);
      Text.Contains(m, "not found") &&
      !Text.Contains(m, "permission denied") && !Text.Contains(m, "api key") &&
      !Text.Contains(m, "requested entity was not found") && !Text.Contains(m, "403")
    ensures IsEnhancerAuthError(message)
    ensures !IsRemoverAuthError(message)
  {
    EnhancerAuthPhrases(message);
    RemoverAuthPhrases(message);
  }

  /** "Model not found" is auth for the enhancer and not for the remover. */
  lemma ModelNotFoundSeparatesClassifiers(message: string)
    requires message == "Model not found"
    ensures IsEnhancerAuthError(message)
    ensures !IsRemoverAuthError(message)
  {
    ModelNotFoundTail(message);
    ModelNotFoundLacks(message);
    RemoverPhrasesLacking(message);
    BareNotFoundSplitsClassifiers(message);
  }

  /** A message containing "permission denied" in any capitalisation is auth
      for both tools. */
  lemma PermissionDeniedIsAuth(message: string)
    requires Text.Contains(Text.Lower(message), "permission denied")
    ensures IsEnhancerAuthError(message)
    ensures IsRemoverAuthError(message)
  {
    EnhancerAuthPhrases(message);
    RemoverAuthPhrases(message);
  }
}
