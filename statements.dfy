/**
 * The strings the partitioner builds for one (account, region) pair: the
 * `{account_id}` substitution of `bucket_prefix.format(account_id=...)`,
 * the partition key stored in the existence table, and the
 * `ALTER TABLE ... ADD PARTITION` statement (`build_query_partition`).
 */
module Statements {
  import opened PyStr
  import opened DateParts

  /** The only placeholder the prefix templates use. */
  const AccountPlaceholder: string := "{account_id}"

  /** `template.format(account_id=accountId)`, restricted to the `{account_id}` placeholder. */
  function FormatAccount(template: string, accountId: string): string
  {
    Replace(template, AccountPlaceholder, accountId)
  }

  /** A template without braces is left as it is. */
  lemma FormatWithoutPlaceholder(template: string, accountId: string)
    requires '{' !in template
    ensures FormatAccount(template, accountId) == template
  {
    AbsentCharExcludes(AccountPlaceholder, template, '{');
    ReplaceAbsent(template, AccountPlaceholder, accountId);
  }

  /** A template with one placeholder and no other brace gets the account id in its place. */
  lemma FormatFillsPlaceholder(before: string, after: string, accountId: string)
    requires '{' !in before && '{' !in after
    ensures FormatAccount(before + AccountPlaceholder + after, accountId) == before + accountId + after
  {
    assert before + AccountPlaceholder + after == before + (AccountPlaceholder + after);
    ReplaceSkipsPrefix(before, AccountPlaceholder + after, AccountPlaceholder, accountId);
    ReplaceAtMatch(after, AccountPlaceholder, accountId);
    FormatWithoutPlaceholder(after, accountId);
  }

  /** `f"{log_type}#{account_id}#{region}#{str_date}"`. */
  function PartitionKey(logType: string, accountId: string, region: string, strDate: string): string
  {
    logType + "#" + accountId + "#" + region + "#" + strDate
  }

  /** Four fields joined by `#`, the first three free of `#`, split back uniquely. */
  lemma HashJoinInjective(w1: string, x1: string, y1: string, z1: string,
                          w2: string, x2: string, y2: string, z2: string)
    requires '#' !in w1 && '#' !in x1 && '#' !in y1
    requires '#' !in w2 && '#' !in x2 && '#' !in y2
    requires w1 + "#" + x1 + "#" + y1 + "#" + z1 == w2 + "#" + x2 + "#" + y2 + "#" + z2
    ensures w1 == w2 && x1 == x2 && y1 == y2 && z1 == z2
  {
    var t1, t2 := y1 + "#" + z1, y2 + "#" + z2;
    var u1, u2 := x1 + "#" + t1, x2 + "#" + t2;
    assert w1 + "#" + x1 + "#" + y1 + "#" + z1 == w1 + ['#'] + u1;
    assert w2 + "#" + x2 + "#" + y2 + "#" + z2 == w2 + ['#'] + u2;
    SplitAtFirst(w1, u1, w2, u2, '#');
    SplitAtFirst(x1, t1, x2, t2, '#');
    SplitAtFirst(y1, z1, y2, z2, '#');
  }

  /**
   * Keys whose first three fields hold no `#` are equal only when their
   * log types, accounts, regions and dates are.
   */
  lemma PartitionKeyInjective(lt1: string, a1: string, r1: string, d1: Date,
                              lt2: string, a2: string, r2: string, d2: Date)
    requires '#' !in lt1 && '#' !in a1 && '#' !in r1 && ValidDate(d1)
    requires '#' !in lt2 && '#' !in a2 && '#' !in r2 && ValidDate(d2)
    requires PartitionKey(lt1, a1, r1, StrDate(d1)) == PartitionKey(lt2, a2, r2, StrDate(d2))
    ensures lt1 == lt2 && a1 == a2 && r1 == r2 && d1 == d2
  {
    HashJoinInjective(lt1, a1, r1, StrDate(d1), lt2, a2, r2, StrDate(d2));
    StrDateInjective(d1, d2);
  }

  /** The partition clause: `accountid='...',regioncode='...',`date`='...'`. */
  function PartitionSpec(accountId: string, region: string, dt: DateTexts): string
  {
    "accountid='" + accountId + "',regioncode='" + region + "',`date`='" + dt.strDate + "'"
  }

  /** The location: `s3://bucket/`, the formatted prefix, then `region/year/month/day`. */
  function LocationUri(bucketName: string, bucketPrefix: string, accountId: string, region: string,
                       dt: DateTexts): string
  {
    "s3://" + bucketName + "/" + FormatAccount(bucketPrefix, accountId) + region
    + "/" + dt.year + "/" + dt.month + "/" + dt.day
  }

  /** The head of every statement for a table, up to the partition clause. */
  function QueryHead(tableName: string): string
  {
    "ALTER TABLE " + tableName + " ADD PARTITION ("
  }

  /**
   * `build_query_partition`: the statement that registers the partition of
   * one account and region for the date, located under the formatted prefix.
   * The text is the source's single concatenation, grouped by clause.
   */
  function BuildQueryPartition(accountId: string, region: string, tableName: string,
                               bucketName: string, bucketPrefix: string, dt: DateTexts): string
  {
    QueryHead(tableName) + PartitionSpec(accountId, region, dt)
    + QueryTail(bucketName, bucketPrefix, accountId, region, dt)
  }

  /** The rest of the statement after the partition clause: its location clause. */
  function QueryTail(bucketName: string, bucketPrefix: string, accountId: string, region: string,
                     dt: DateTexts): string
  {
    ") location '" + LocationUri(bucketName, bucketPrefix, accountId, region, dt) + "';"
  }

  /** Regrouping a concatenation. */
  lemma Assoc(a: string, b: string, c: string)
    ensures a + b + c == a + (b + c)
  {
  }

  /** The location as one flat concatenation appended to any text. */
  lemma LocationText(x: string, bucketName: string, bucketPrefix: string, accountId: string, region: string,
                     dt: DateTexts)
    ensures x + "s3://" + bucketName + "/" + FormatAccount(bucketPrefix, accountId) + region
            + "/" + dt.year + "/" + dt.month + "/" + dt.day
         == x + LocationUri(bucketName, bucketPrefix, accountId, region, dt)
  {
    var l1 := "s3://" + bucketName;
    var l2 := l1 + "/";
    var l3 := l2 + FormatAccount(bucketPrefix, accountId);
    var l4 := l3 + region;
    var l5 := l4 + "/";
    var l6 := l5 + dt.year;
    var l7 := l6 + "/";
    var l8 := l7 + dt.month;
    var l9 := l8 + "/";
    Assoc(x, "s3://", bucketName);
    Assoc(x, l1, "/");
    Assoc(x, l2, FormatAccount(bucketPrefix, accountId));
    Assoc(x, l3, region);
    Assoc(x, l4, "/");
    Assoc(x, l5, dt.year);
    Assoc(x, l6, "/");
    Assoc(x, l7, dt.month);
    Assoc(x, l8, "/");
    Assoc(x, l9, dt.day);
  }

  /** The head and partition clause as one flat concatenation. */
  lemma ClauseText(accountId: string, region: string, tableName: string, dt: DateTexts)
    ensures "ALTER TABLE " + tableName + " ADD PARTITION (accountid='" + accountId
            + "',regioncode='" + region + "',`date`='" + dt.strDate + "') location '"
         == QueryHead(tableName) + PartitionSpec(accountId, region, dt) + ") location '"
  {
    var t := "ALTER TABLE " + tableName;
    var h := QueryHead(tableName);
    Assoc(t, " ADD PARTITION (", "accountid='");
    assert " ADD PARTITION (" + "accountid='" == " ADD PARTITION (accountid='";
    var c1 := "accountid='" + accountId;
    var c2 := c1 + "',regioncode='";
    var c3 := c2 + region;
    var c4 := c3 + "',`date`='";
    var c5 := c4 + dt.strDate;
    Assoc(h, "accountid='", accountId);
    Assoc(h, c1, "',regioncode='");
    Assoc(h, c2, region);
    Assoc(h, c3, "',`date`='");
    Assoc(h, c4, dt.strDate);
    Assoc(h, c5, "'");
    Assoc(h + c5, "'", ") location '");
    assert "'" + ") location '" == "') location '";
  }

  /** The statement as one flat concatenation of literals and fields, in the source's order. */
  lemma QueryText(accountId: string, region: string, tableName: string,
                  bucketName: string, bucketPrefix: string, dt: DateTexts)
    ensures BuildQueryPartition(accountId, region, tableName, bucketName, bucketPrefix, dt)
         == "ALTER TABLE " + tableName + " ADD PARTITION (accountid='" + accountId
            + "',regioncode='" + region + "',`date`='" + dt.strDate + "') location '"
            + "s3://" + bucketName + "/" + FormatAccount(bucketPrefix, accountId) + region
            + "/" + dt.year + "/" + dt.month + "/" + dt.day + "';"
  {
    var x := "ALTER TABLE " + tableName + " ADD PARTITION (accountid='" + accountId
             + "',regioncode='" + region + "',`date`='" + dt.strDate + "') location '";
    ClauseText(accountId, region, tableName, dt);
    LocationText(x, bucketName, bucketPrefix, accountId, region, dt);
  }

  /** Where the quoted account and region values sit inside the partition clause. */
  lemma PartitionSpecLayout(accountId: string, region: string, dt: DateTexts)
    ensures var s, n := PartitionSpec(accountId, region, dt), 11 + |accountId|;
      n + 14 + |region| < |s|
      && s[11..n] == accountId && s[n] == '\''
      && s[n + 14..n + 14 + |region|] == region && s[n + 14 + |region|] == '\''
  {
  }

  /** The partition clause sits right after the head of the statement. */
  lemma QueryLayout(accountId: string, region: string, tableName: string,
                    bucketName: string, bucketPrefix: string, dt: DateTexts)
    ensures var q, h, s := BuildQueryPartition(accountId, region, tableName, bucketName, bucketPrefix, dt),
                           QueryHead(tableName), PartitionSpec(accountId, region, dt);
      |h| + |s| <= |q| && q[|h|..|h| + |s|] == s
  {
  }

  /** `v` sits at offset `n` of `q`, closed by a quote. */
  predicate QuotedAt(q: string, n: nat, v: string)
  {
    n + |v| < |q| && q[n..n + |v|] == v && q[n + |v|] == '\''
  }

  /** A value followed by a quote, at the same offset of one string, is determined by the offset. */
  lemma QuotedValueAt(q: string, n: nat, v1: string, v2: string)
    requires '\'' !in v1 && '\'' !in v2
    requires QuotedAt(q, n, v1) && QuotedAt(q, n, v2)
    ensures v1 == v2
  {
    assert forall i :: 0 <= i < |v1| ==> q[n + i] == v1[i];
    assert forall i :: 0 <= i < |v2| ==> q[n + i] == v2[i];
  }

  /** A quoted value inside a part of `q` sits at the part's offset plus its own. */
  lemma QuotedValueIn(q: string, h: nat, s: string, k: nat, v: string)
    requires h + |s| <= |q| && q[h..h + |s|] == s
    requires QuotedAt(s, k, v)
    ensures QuotedAt(q, h + k, v)
  {
    assert forall i :: 0 <= i < |s| ==> q[h + i] == s[i];
    assert forall i :: 0 <= i < |v| ==> s[k + i] == v[i];
  }

  /** The account id is the first quoted value of the statement. */
  lemma QueryAccountAt(a: string, r: string, tableName: string, bucketName: string, bucketPrefix: string,
                       dt: DateTexts)
    ensures QuotedAt(BuildQueryPartition(a, r, tableName, bucketName, bucketPrefix, dt), |QueryHead(tableName)| + 11, a)
  {
    var q := BuildQueryPartition(a, r, tableName, bucketName, bucketPrefix, dt);
    QueryLayout(a, r, tableName, bucketName, bucketPrefix, dt);
    PartitionSpecLayout(a, r, dt);
    QuotedValueIn(q, |QueryHead(tableName)|, PartitionSpec(a, r, dt), 11, a);
  }

  /** The region is the second quoted value of the statement. */
  lemma QueryRegionAt(a: string, r: string, tableName: string, bucketName: string, bucketPrefix: string,
                      dt: DateTexts)
    ensures QuotedAt(BuildQueryPartition(a, r, tableName, bucketName, bucketPrefix, dt),
                     |QueryHead(tableName)| + 11 + |a| + 14, r)
  {
    var q := BuildQueryPartition(a, r, tableName, bucketName, bucketPrefix, dt);
    QueryLayout(a, r, tableName, bucketName, bucketPrefix, dt);
    PartitionSpecLayout(a, r, dt);
    QuotedValueIn(q, |QueryHead(tableName)|, PartitionSpec(a, r, dt), 11 + |a| + 14, r);
  }

  /** The account id is read back from the statement. */
  lemma QueryAccountDetermined(a1: string, r1: string, a2: string, r2: string,
                               tableName: string, bucketName: string, bucketPrefix: string, dt: DateTexts)
    requires '\'' !in a1 && '\'' !in a2
    requires BuildQueryPartition(a1, r1, tableName, bucketName, bucketPrefix, dt)
          == BuildQueryPartition(a2, r2, tableName, bucketName, bucketPrefix, dt)
    ensures a1 == a2
  {
    var q := BuildQueryPartition(a1, r1, tableName, bucketName, bucketPrefix, dt);
    var n := |QueryHead(tableName)| + 11;
    QueryAccountAt(a1, r1, tableName, bucketName, bucketPrefix, dt);
    QueryAccountAt(a2, r2, tableName, bucketName, bucketPrefix, dt);
    assert QuotedAt(q, n, a1) && QuotedAt(q, n, a2);
    QuotedValueAt(q, n, a1, a2);
  }

  /** For one account, the region is read back from the statement. */
  lemma QueryRegionDetermined(a: string, r1: string, r2: string,
                              tableName: string, bucketName: string, bucketPrefix: string, dt: DateTexts)
    requires '\'' !in r1 && '\'' !in r2
    requires BuildQueryPartition(a, r1, tableName, bucketName, bucketPrefix, dt)
          == BuildQueryPartition(a, r2, tableName, bucketName, bucketPrefix, dt)
    ensures r1 == r2
  {
    var q := BuildQueryPartition(a, r1, tableName, bucketName, bucketPrefix, dt);
    var n := |QueryHead(tableName)| + 11 + |a| + 14;
    QueryRegionAt(a, r1, tableName, bucketName, bucketPrefix, dt);
    QueryRegionAt(a, r2, tableName, bucketName, bucketPrefix, dt);
    assert QuotedAt(q, n, r1) && QuotedAt(q, n, r2);
    QuotedValueAt(q, n, r1, r2);
  }

  /**
   * For one table, bucket, prefix and date, identifiers without a quote
   * character give distinct statements for distinct (account, region) pairs.
   */
  lemma QueryInjective(a1: string, r1: string, a2: string, r2: string,
                       tableName: string, bucketName: string, bucketPrefix: string, dt: DateTexts)
    requires '\'' !in a1 && '\'' !in r1 && '\'' !in a2 && '\'' !in r2
    requires BuildQueryPartition(a1, r1, tableName, bucketName, bucketPrefix, dt)
          == BuildQueryPartition(a2, r2, tableName, bucketName, bucketPrefix, dt)
    ensures a1 == a2 && r1 == r2
  {
    QueryAccountDetermined(a1, r1, a2, r2, tableName, bucketName, bucketPrefix, dt);
    QueryRegionDetermined(a1, r1, r2, tableName, bucketName, bucketPrefix, dt);
  }

  /** The location ends with `/` and the day text. */
  lemma LocationEndsWith(bucketName: string, bucketPrefix: string, accountId: string, region: string, dt: DateTexts)
    ensures var loc := LocationUri(bucketName, bucketPrefix, accountId, region, dt);
      |loc| > |dt.day| && loc[|loc| - |dt.day| - 1..] == "/" + dt.day
  {
    var pre := "s3://" + bucketName + "/" + FormatAccount(bucketPrefix, accountId) + region
               + "/" + dt.year + "/" + dt.month;
    var loc := LocationUri(bucketName, bucketPrefix, accountId, region, dt);
    Assoc(pre, "/", dt.day);
    assert loc == pre + ("/" + dt.day);
    assert loc[|pre|..] == "/" + dt.day;
  }

  /** The location of a partition ends with `/` and the two-digit day: no trailing slash. */
  lemma LocationEndsWithDay(bucketName: string, bucketPrefix: string, accountId: string, region: string, d: Date)
    requires ValidDate(d)
    ensures var loc := LocationUri(bucketName, bucketPrefix, accountId, region, TextsOf(d));
      |loc| >= 3 && loc[|loc| - 3..] == "/" + DayText(d) && loc[|loc| - 1] != '/'
  {
    var dt := TextsOf(d);
    PaddedTwoDigits(d.day);
    assert |dt.day| == 2 && '0' <= dt.day[1] <= '9';
    LocationEndsWith(bucketName, bucketPrefix, accountId, region, dt);
  }

  /**
   * The location under a template with one `{account_id}`: the account id
   * takes the placeholder's place, then come the region and the date path.
   */
  lemma LocationFillsTemplate(bucketName: string, before: string, after: string, accountId: string,
                              region: string, dt: DateTexts)
    requires '{' !in before && '{' !in after
    ensures LocationUri(bucketName, before + AccountPlaceholder + after, accountId, region, dt)
         == "s3://" + bucketName + "/" + before + accountId + after + region
            + "/" + dt.year + "/" + dt.month + "/" + dt.day
  {
    FormatFillsPlaceholder(before, after, accountId);
    var x := "s3://" + bucketName + "/";
    Assoc(x, before, accountId);
    Assoc(x, before + accountId, after);
  }
}
