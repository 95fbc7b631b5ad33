/** The notification settings endpoint: an Expo push-token format check and
    an update of the user's row built from the fields the body carries. */
module Notifications {
  import opened Common
  import opened Validator
  import opened Responses

  const EXPO_PREFIX := "ExponentPushToken["
  const INVALID_TOKEN := "Invalid Expo push token format"
  const UPDATE_FAILED := "Failed to update notification settings"
  const UPDATED := "Notification settings updated successfully"

  /** The character class [a-zA-Z0-9\-_]. */
  predicate TokenChar(c: char)
  {
    'a' <= c <= 'z' || 'A' <= c <= 'Z' || '0' <= c <= '9' || c == '-' || c == '_'
  }

  predicate AllTokenChars(s: string) { forall i :: 0 <= i < |s| ==> TokenChar(s[i]) }

  /** The character class [a-f0-9]. */
  predicate LowerHex(c: char) { 'a' <= c <= 'f' || '0' <= c <= '9' }

  // ---------------------------------------------------------------------
  // validateExpoToken as a left-to-right match of the two anchored patterns

  /** From position i: token characters up to a closing ']' that ends the text. */
  function ScanBody(s: string, i: nat): bool
    decreases |s| - i
  {
    i < |s| && ((s[i] == ']' && i + 1 == |s|) || (TokenChar(s[i]) && ScanBody(s, i + 1)))
  }

  function ScanHex(s: string, i: nat): bool
    decreases |s| - i
  {
    i >= |s| || (LowerHex(s[i]) && ScanHex(s, i + 1))
  }

  /** validateExpoToken: `^ExponentPushToken\[([a-zA-Z0-9\-_]+)\]$` or `^[a-f0-9]{32}$`. */
  function ValidateExpoToken(token: string): bool
  {
    var n := |EXPO_PREFIX|;
    (StartsWith(token, EXPO_PREFIX) && n < |token| && TokenChar(token[n]) && ScanBody(token, n + 1))
    || (|token| == 32 && ScanHex(token, 0))
  }

  /** The patterns stated as the set of strings they describe. */
  ghost predicate IsExpoToken(s: string)
  {
    exists body: string :: |body| >= 1 && AllTokenChars(body) && s == EXPO_PREFIX + body + "]"
  }

  predicate IsHexToken(s: string)
  {
    |s| == 32 && forall i :: 0 <= i < |s| ==> LowerHex(s[i])
  }

  lemma {:induction false} ScanBodyMeans(s: string, i: nat)
    ensures ScanBody(s, i) <==>
            i < |s| && s[|s| - 1] == ']' && forall k :: i <= k < |s| - 1 ==> TokenChar(s[k])
    decreases |s| - i
  {
    if i < |s| {
      ScanBodyMeans(s, i + 1);
      if s[i] != ']' && TokenChar(s[i]) && i + 1 == |s| {
        assert !ScanBody(s, i + 1);
      }
    }
  }

  lemma {:induction false} ScanHexMeans(s: string, i: nat)
    ensures ScanHex(s, i) <==> forall k :: i <= k < |s| ==> LowerHex(s[k])
    decreases |s| - i
  {
    if i < |s| {
      ScanHexMeans(s, i + 1);
    }
  }

  /** A token the prefix scanner accepts is the prefix, a body of token characters and ']'. */
  lemma ScannedIsExpoToken(token: string)
    requires StartsWith(token, EXPO_PREFIX) && |EXPO_PREFIX| < |token| && TokenChar(token[|EXPO_PREFIX|])
    requires ScanBody(token, |EXPO_PREFIX| + 1)
    ensures IsExpoToken(token)
  {
    var n := |EXPO_PREFIX|;
    ScanBodyMeans(token, n + 1);
    var body := token[n..|token| - 1];
    assert AllTokenChars(body) by {
      forall k | 0 <= k < |body| ensures TokenChar(body[k]) {
        assert body[k] == token[n + k];
      }
    }
    assert token == EXPO_PREFIX + body + "]";
  }

  /** Every token of the prefix shape passes the prefix scanner. */
  lemma ExpoTokenScans(token: string)
    requires IsExpoToken(token)
    ensures StartsWith(token, EXPO_PREFIX) && |EXPO_PREFIX| < |token| && TokenChar(token[|EXPO_PREFIX|])
    ensures ScanBody(token, |EXPO_PREFIX| + 1)
  {
    var n := |EXPO_PREFIX|;
    var body: string :| |body| >= 1 && AllTokenChars(body) && token == EXPO_PREFIX + body + "]";
    assert token[..n] == EXPO_PREFIX;
    assert token[n] == body[0];
    assert token[|token| - 1] == ']';
    forall k | n + 1 <= k < |token| - 1 ensures TokenChar(token[k]) {
      assert token[k] == body[k - n];
    }
    ScanBodyMeans(token, n + 1);
  }

  /** The scanner accepts exactly the two token shapes. */
  lemma ValidateExpoTokenMeans(token: string)
    ensures ValidateExpoToken(token) <==> IsExpoToken(token) || IsHexToken(token)
  {
    var n := |EXPO_PREFIX|;
    ScanHexMeans(token, 0);
    if StartsWith(token, EXPO_PREFIX) && n < |token| && TokenChar(token[n]) && ScanBody(token, n + 1) {
      ScannedIsExpoToken(token);
    }
    if IsExpoToken(token) {
      ExpoTokenScans(token);
    }
  }

  /** Tokens as the Expo client issues them pass; an empty body does not. */
  lemma ExpoExamples(body: string)
    requires |body| >= 1 && AllTokenChars(body)
    ensures ValidateExpoToken(EXPO_PREFIX + body + "]")
    ensures !ValidateExpoToken(EXPO_PREFIX + "]")
  {
    ValidateExpoTokenMeans(EXPO_PREFIX + body + "]");
  }

  // ---------------------------------------------------------------------
  // UpdateSettings

  /** `data["notification_token"].(string)`, or "" when absent or not a string. */
  function TokenOf(data: map<string, Json>): (t: string)
    ensures t != "" ==> GetString(data, "notification_token") == Some(t)
    ensures GetString(data, "notification_token").None? ==> t == ""
  {
    match GetString(data, "notification_token")
    case Some(s) => s
    case None => ""
  }

  /** The columns the update writes: the flag whenever the key is there (any
      value, null included), the token only when non-empty. */
  function SettingsUpdates(data: map<string, Json>): (u: map<string, Json>)
    ensures ("has_allow_notification" in u) <==> "has_allow_notification" in data
    ensures "has_allow_notification" in u ==> u["has_allow_notification"] == data["has_allow_notification"]
    ensures ("notification_token" in u) <==> TokenOf(data) != ""
    ensures "notification_token" in u ==> u["notification_token"] == JString(TokenOf(data))
    ensures u.Keys <= {"has_allow_notification", "notification_token"}
  {
    var flag: map<string, Json> :=
      if "has_allow_notification" in data then map["has_allow_notification" := data["has_allow_notification"]]
      else map[];
    if TokenOf(data) != "" then flag["notification_token" := JString(TokenOf(data))] else flag
  }

  datatype SettingsResponse = ValidationFailed(errors: Errors) | Answered(envelope: Envelope<Json>)

  /** The users table, as the columns each user's row holds. */
  class Users {
    var rows: map<nat, map<string, Json>>

    constructor(rows: map<nat, map<string, Json>>)
      ensures this.rows == rows
    {
      this.rows := rows;
    }
  }

  class NotificationController {
    const users: Users

    constructor(users: Users)
      ensures this.users == users
    {
      this.users := users;
    }

    /** UpdateSettings: a non-empty token must match one of the two formats,
        checked before anything is written; an empty update writes nothing;
        `Updates` on a missing row changes no row and is not an error. */
    method UpdateSettings(userId: nat, data: map<string, Json>, ruleErrors: Option<Errors>, writeFails: bool)
      returns (r: SettingsResponse)
      modifies users
      ensures ruleErrors.Some? ==> r == ValidationFailed(ruleErrors.value) && users.rows == old(users.rows)
      ensures ruleErrors.None? && TokenOf(data) != "" && !ValidateExpoToken(TokenOf(data)) ==>
                r == Answered(ErrorResponse(400, INVALID_TOKEN)) && users.rows == old(users.rows)
      ensures ruleErrors.None? && (TokenOf(data) == "" || ValidateExpoToken(TokenOf(data))) ==>
                var updates := SettingsUpdates(data);
                if updates != map[] && writeFails then
                  r == Answered(ErrorResponse(500, UPDATE_FAILED)) && users.rows == old(users.rows)
                else
                  r == Answered(SuccessResponse(UPDATED, None))
                  && users.rows == (if updates != map[] && userId in old(users.rows)
                                    then old(users.rows)[userId := old(users.rows)[userId] + updates]
                                    else old(users.rows))
    {
      if ruleErrors.Some? {
        return ValidationFailed(ruleErrors.value);
      }
      var notificationToken := "";
      var token := GetString(data, "notification_token");
      if token.Some? {
        notificationToken := token.value;
      }
      if notificationToken != "" {
        if !ValidateExpoToken(notificationToken) {
          return Answered(ErrorResponse(400, INVALID_TOKEN));
        }
      }
      var updates: map<string, Json> := map[];
      if "has_allow_notification" in data {
        updates := updates["has_allow_notification" := data["has_allow_notification"]];
      }
      if notificationToken != "" {
        updates := updates["notification_token" := JString(notificationToken)];
      }
      assert updates == SettingsUpdates(data);
      if |updates| > 0 {
        if writeFails {
          return Answered(ErrorResponse(500, UPDATE_FAILED));
        }
        if userId in users.rows {
          users.rows := users.rows[userId := users.rows[userId] + updates];
        }
      }
      r := Answered(SuccessResponse(UPDATED, None));
    }
  }

  /** An invalid non-empty token matches neither accepted format, even when
      the flag is among the columns to write. The rejection of the whole
      body, flag included, is the second `ensures` of `UpdateSettings`. */
  lemma InvalidTokenBlocksFlag(data: map<string, Json>)
    requires TokenOf(data) != "" && !ValidateExpoToken(TokenOf(data))
    requires "has_allow_notification" in data
    ensures "has_allow_notification" in SettingsUpdates(data)
    ensures !IsExpoToken(TokenOf(data)) && !IsHexToken(TokenOf(data))
  {
    ValidateExpoTokenMeans(TokenOf(data));
  }

  /** A body with neither key, or with only an empty or non-string token,
      updates nothing. */
  lemma NothingToUpdate(data: map<string, Json>)
    requires "has_allow_notification" !in data
    requires GetString(data, "notification_token").None? || GetString(data, "notification_token") == Some("")
    ensures SettingsUpdates(data) == map[]
  {
    var u := SettingsUpdates(data);
    assert u.Keys == {};
  }
}
