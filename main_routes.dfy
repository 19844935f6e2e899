/** The web layer of main.cpp: the `POST /question` handler and `populateTemplate`,
    which fills the context of the FAQ page. Both run against the SecurityManager
    and the GoogleSheetDataAccess the server builds at start-up. The clock readings,
    the CAPTCHA provider's answer and the spreadsheet's HTTP replies are parameters. */
module Routes {
  import opened Outcomes
  import opened Tools
  import opened Security
  import opened GoogleSheet

  /** Longest accepted question, in bytes of its UTF-8 encoding. */
  const MaxQuestionBytes: nat := 200

  // A reply written below in two parts equals the source's single literal; the
  // split after its first word only helps the verifier tell the replies apart.
  const MsgDefault: string := "Erreur."
  const MsgThanks: string := "Merci" + " d'avoir posé votre question."
  const MsgStoreError: string := "Erreur" + " lors de l'enregistrement de la question."
  const MsgTooLong: string := "Votre" + " question est trop longue (200 caractères max) veuillez la reformuler"
  const MsgCaptcha: string :=
    "Recaptcha" + " invalide, veuillez reéssayer en veillant à bien cocher la case 'Je ne suis pas un robot'"
  const MsgAlreadyAsked: string :=
    "Vous" + " avez déjà posé votre question aujourd'hui, veuillez réessayer plus tard."

  /** The body parameters of the question form. */
  datatype QuestionForm = QuestionForm(recaptchaResponse: string, numQuestion: string, inputQuestion: string)

  // ------------------------------------------------------------------------
  // The length test
  // ------------------------------------------------------------------------

  /** Bytes of one character in UTF-8. */
  function CharBytes(c: char): (n: nat)
    ensures 1 <= n <= 4
    ensures n == 1 <==> (c as int) < 0x80
  {
    if (c as int) < 0x80 then 1
    else if (c as int) < 0x800 then 2
    else if (c as int) < 0x1_0000 then 3
    else 4
  }

  /** `std::string::length()` of the question: its UTF-8 byte count. */
  function ByteLength(s: string): (n: nat)
    ensures s == [] <==> n == 0
  {
    if s == [] then 0 else ByteLength(s[..|s| - 1]) + CharBytes(s[|s| - 1])
  }

  /** A question never has fewer bytes than characters, so a question of more
      than 200 characters is always refused. */
  lemma {:induction false} ByteLengthAtLeastChars(s: string)
    ensures ByteLength(s) >= |s|
    ensures |s| > MaxQuestionBytes ==> ByteLength(s) > MaxQuestionBytes
  {
    if s != [] {
      ByteLengthAtLeastChars(s[..|s| - 1]);
    }
  }

  /** For ASCII text the byte count is the character count; any other character
      makes it strictly larger. */
  lemma {:induction false} ByteLengthAscii(s: string)
    ensures ByteLength(s) == |s| <==> forall i :: 0 <= i < |s| ==> (s[i] as int) < 0x80
  {
    if s != [] {
      var n := |s| - 1;
      ByteLengthAscii(s[..n]);
      ByteLengthAtLeastChars(s[..n]);
      if forall i :: 0 <= i < |s| ==> (s[i] as int) < 0x80 {
        assert forall i :: 0 <= i < n ==> s[..n][i] == s[i];
      } else {
        var i :| 0 <= i < |s| && (s[i] as int) >= 0x80;
        if i < n {
          assert s[..n][i] == s[i];
        }
      }
    }
  }

  // ------------------------------------------------------------------------
  // POST /question
  // ------------------------------------------------------------------------

  /** The number written into the new row: the form's `numQuestion` read by
      `extractInteger`, plus one in unsigned 32-bit arithmetic. */
  function NextQuestionNumber(numQuestion: string): (n: U32)
    ensures ExtractInteger(numQuestion) < TwoTo32 - 1 ==> n == ExtractInteger(numQuestion) + 1
    ensures n == 0 <==> ExtractInteger(numQuestion) == TwoTo32 - 1
  {
    (ExtractInteger(numQuestion) + 1) % TwoTo32
  }

  /** A count the page renders is followed by one more. */
  lemma NextQuestionNumberOfCount(n: int)
    requires 0 <= n < IntMax
    ensures NextQuestionNumber(IntToString(n)) == n + 1
  {
    ExtractIntegerIntToString(n, "");
    assert IntToString(n) + "" == IntToString(n);
  }

  /** An unreadable count restarts at 1, and "-1" wraps around to 0. */
  lemma NextQuestionNumberEdgeCases()
    ensures NextQuestionNumber("abc") == 1
    ensures NextQuestionNumber("-1") == 0
  {
    ExtractIntegerExamples();
  }

  /** The handler reaches `createQuestion`: the address may submit, the CAPTCHA
      verifies and the question fits. */
  predicate Attempts(allowed: bool, captchaValid: bool, question: string)
  {
    allowed && captchaValid && ByteLength(question) <= MaxQuestionBytes
  }

  /** The handler's answer, from the outcome of each test in the order it makes
      them: address cooldown, CAPTCHA, length, storage. */
  function QuestionReply(allowed: bool, captchaValid: bool, question: string, created: bool): (msg: string)
    ensures Attempts(allowed, captchaValid, question) ==> msg == (if created then MsgThanks else MsgStoreError)
    ensures !Attempts(allowed, captchaValid, question) ==> msg in {MsgAlreadyAsked, MsgCaptcha, MsgTooLong}
  {
    if !allowed then MsgAlreadyAsked
    else if !captchaValid then MsgCaptcha
    else if ByteLength(question) > MaxQuestionBytes then MsgTooLong
    else if created then MsgThanks
    else MsgStoreError
  }

  /** The answers are pairwise different, so the answer tells which test failed;
      the thanks message comes exactly when every test passed, and the initial
      "Erreur." is never what is sent. */
  lemma QuestionReplyDecides(allowed: bool, captchaValid: bool, question: string, created: bool)
    ensures var msg := QuestionReply(allowed, captchaValid, question, created);
            && (msg == MsgThanks <==> allowed && captchaValid && ByteLength(question) <= MaxQuestionBytes && created)
            && (msg == MsgAlreadyAsked <==> !allowed)
            && (msg == MsgCaptcha <==> allowed && !captchaValid)
            && (msg == MsgTooLong <==> allowed && captchaValid && ByteLength(question) > MaxQuestionBytes)
            && (msg == MsgStoreError <==> allowed && captchaValid && ByteLength(question) <= MaxQuestionBytes && !created)
            && msg != MsgDefault
  {
    assert MsgThanks[0] == 'M' && MsgStoreError[0] == 'E' && MsgTooLong[0] == 'V';
    assert MsgCaptcha[0] == 'R' && MsgAlreadyAsked[0] == 'V' && MsgDefault[0] == 'E';
    assert MsgTooLong[3] == 'r' && MsgAlreadyAsked[3] == 's';
    assert MsgDefault[6] == '.' && MsgStoreError[6] == ' ';
  }

  /** Once a question from an address is stored with protection on, every later
      submission from it before the cooldown ends is answered "already asked". */
  lemma RepeatQuestionRefused(cooldowns: map<string, int>, key: string, registeredAt: int, delay: int,
                              later: int, captchaValid: bool, question: string, created: bool)
    requires later < CurrentTimestamp(registeredAt, delay)
    ensures var after := cooldowns[key := CurrentTimestamp(registeredAt, delay)];
            QuestionReply(CanSubmit(true, after, key, later), captchaValid, question, created) == MsgAlreadyAsked
  {
  }

  /** The `POST /question` handler. The parameters after the form are, in call
      order: the time `checkIp` reads, the CAPTCHA provider's answer, the time
      `majAccessToken` reads to test the cached token, the token endpoint's reply
      and the time read after it, the append call's status, and the time
      `registerIp` reads. `captchaQuery` is the query posted to the CAPTCHA
      provider, if it is asked, and `appended` the append request sent, if any; the
      clock and the replies are used only on the paths that reach them. */
  method PostQuestion(sm: SecurityManager, da: GoogleSheetDataAccess, ip: string, form: QuestionForm,
                      checkTime: int, captcha: CaptchaReply, createTime: int, tokenReply: TokenReply,
                      tokenReplyTime: int, appendStatus: int, registerTime: int)
    returns (reply: string, captchaQuery: Option<string>, appended: Option<AppendRequest>)
    modifies sm`ipNextTry, sm`registered, da`accessToken, da`accessTokenTimestamp
    ensures old(sm.Valid()) ==> sm.Valid()
    ensures reply == QuestionReply(old(sm.SubmissionAllowed(ip, checkTime)), sm.ValidateCaptcha(captcha),
                                   form.inputQuestion, appendStatus == 200)
    ensures captchaQuery.Some? <==> old(sm.SubmissionAllowed(ip, checkTime))
    ensures captchaQuery.Some? ==> captchaQuery.value == sm.CaptchaQuery(form.recaptchaResponse)
    ensures appended.Some? <==> Attempts(old(sm.SubmissionAllowed(ip, checkTime)), sm.ValidateCaptcha(captcha),
                                         form.inputQuestion)
    ensures appended.Some? ==>
              appended.value == AppendRequest(da.AppendPath(), AppendRange(da.tab, da.fields), "ROWS",
                                              [NewQuestionRow(form.inputQuestion, NextQuestionNumber(form.numQuestion))],
                                              "Bearer " + da.accessToken)
    ensures da.Cache() == if appended.Some? then AfterRefresh(old(da.Cache()), createTime, tokenReplyTime, tokenReply)
                          else old(da.Cache())
    ensures sm.ipNextTry == if appended.Some? && appendStatus == 200 && sm.ipProtection
                            then old(sm.ipNextTry)[sm.Fingerprint(ip) := CurrentTimestamp(registerTime, sm.ipNextTryTime)]
                            else old(sm.ipNextTry)
  {
    reply := MsgDefault;
    captchaQuery := None;
    appended := None;
    var allowed := sm.CheckIp(ip, checkTime);
    if allowed {
      captchaQuery := Some(sm.CaptchaQuery(form.recaptchaResponse));
      if sm.ValidateCaptcha(captcha) {
        var numQuestion := ExtractInteger(form.numQuestion);
        var question := form.inputQuestion;
        if ByteLength(question) <= MaxQuestionBytes {
          var next: U32 := (numQuestion + 1) % TwoTo32;
          assert next == NextQuestionNumber(form.numQuestion);
          var created, request, _ := da.CreateQuestion(question, next, createTime, tokenReplyTime, tokenReply, appendStatus);
          appended := Some(request);
          if created {
            ghost var token := da.accessToken;
            ghost var cache := da.Cache();
            sm.RegisterIp(ip, registerTime);
            assert da.accessToken == token && da.Cache() == cache;
            reply := MsgThanks;
          } else {
            reply := MsgStoreError;
          }
        } else {
          reply := MsgTooLong;
        }
      } else {
        reply := MsgCaptcha;
      }
    } else {
      reply := MsgAlreadyAsked;
    }
  }

  // ------------------------------------------------------------------------
  // populateTemplate
  // ------------------------------------------------------------------------

  /** A value of the mustache context: a string, a count, or the rows shown. */
  datatype CtxValue = Str(s: string) | Size(n: nat) | List(rows: seq<FAQRow>)

  /** The context `populateTemplate` builds from the CAPTCHA site key, the
      `showAskQuestion` verdict and the validated rows. */
  function TemplateContext(captchaClient: string, askQuestion: bool, validated: Option<seq<FAQRow>>)
    : (ctx: map<string, CtxValue>)
    ensures "captchaClient" in ctx && ctx["captchaClient"] == Str(captchaClient)
    ensures "allQr" in ctx <==> validated.Some?
  {
    assert "captchaClient" != "askQuestion" && "captchaClient" != "allQr";
    assert "numQuestion" != "allQr" && "askQuestion" != "allQr";
    var base := map["captchaClient" := Str(captchaClient)];
    var withAsk := if askQuestion then base["askQuestion" := Str("true")] else base;
    match validated
    case None => withAsk
    case Some(rows) => withAsk["allQr" := List(rows)]["numQuestion" := Size(|rows|)]
  }

  /** The keys of the page context: the site key always; the form flag exactly
      when the form is shown; the list and the hidden count together, exactly
      when the sheet could be read, the count being the number of rows listed. */
  lemma TemplateContextKeys(captchaClient: string, askQuestion: bool, validated: Option<seq<FAQRow>>)
    ensures var ctx := TemplateContext(captchaClient, askQuestion, validated);
            && ctx.Keys == {"captchaClient"} + (if askQuestion then {"askQuestion"} else {})
                           + (if validated.Some? then {"allQr", "numQuestion"} else {})
            && ctx["captchaClient"] == Str(captchaClient)
            && (askQuestion ==> ctx["askQuestion"] == Str("true"))
            && (validated.Some? ==> ctx["allQr"] == List(validated.value)
                                    && ctx["numQuestion"] == Size(|validated.value|))
  {
    assert "captchaClient" != "askQuestion" && "allQr" != "numQuestion";
    assert "captchaClient" != "allQr" && "captchaClient" != "numQuestion";
    assert "askQuestion" != "allQr" && "askQuestion" != "numQuestion";
  }

  /** The page lists exactly the validated rows of the sheet. */
  lemma ListedRowsAreValidated(reply: SheetReply, r: FAQRow)
    requires SheetDecodable(reply) && reply.body != ""
    ensures r in ValidatedSheet(reply).value <==> r in DecodeSheet(reply).value && r.reponseValide
  {
    OnlyValidatedMembership(DecodeSheet(reply).value, r);
  }

  /** `populateTemplate` for the client at `ip` at time `now`, given the sheet's
      batchGet reply; rendering the page from the context is left out. */
  method PopulateTemplate(sm: SecurityManager, da: GoogleSheetDataAccess, ip: string, now: int, reply: SheetReply)
    returns (ctx: map<string, CtxValue>)
    requires SheetDecodable(reply)
    ensures ctx == TemplateContext(sm.captchaClient, sm.FormShown(ip, now), ValidatedSheet(reply))
  {
    ctx := map["captchaClient" := Str(sm.captchaClient)];
    var ask := sm.ShowAskQuestion(ip, now);
    if ask {
      ctx := ctx["askQuestion" := Str("true")];
    }
    var allQr := da.GetAllValidated(reply);
    if allQr.Some? {
      ctx := ctx["allQr" := List(allQr.value)];
      ctx := ctx["numQuestion" := Size(|allQr.value|)];
    }
  }
}
