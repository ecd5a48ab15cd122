/** Person attributes shared by the census cleaning and the population enrichment stages. */
module Attributes {

  datatype Sex = Male | Female

  /** The education age range of a person. */
  datatype AgeRange = PrimarySchool | MiddleSchool | HighSchool | HigherEducation

  /** The age-range column: a default of higher_education, then three masked overwrites
      (age <= 10, 11 <= age <= 14, 15 <= age <= 17) applied in that order. Both stages
      use this one bucketing, so census and enriched persons always agree on it. */
  function AgeRangeOf(age: int): (r: AgeRange)
    ensures r == PrimarySchool <==> age <= 10
    ensures r == MiddleSchool <==> 11 <= age <= 14
    ensures r == HighSchool <==> 15 <= age <= 17
    ensures r == HigherEducation <==> 18 <= age
  {
    var r := HigherEducation;
    var r := if age <= 10 then PrimarySchool else r;
    var r := if 11 <= age <= 14 then MiddleSchool else r;
    if 15 <= age <= 17 then HighSchool else r
  }
}
