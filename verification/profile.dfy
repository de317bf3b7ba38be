/** The user profile handed to the filters, the matcher and the category
    selector (src/models/user_profile.py). */
module Profiles {
  import opened Wrappers

  /** The four declared fields, plus the two attributes the matcher reads
      (`experience_years`, `min_budget`).  Neither is declared by the
      repository's profile classes, so `None` stands for "the attribute
      does not exist" and `Some(v)` for a profile object that carries it. */
  datatype UserProfile = UserProfile(
    skills: seq<string>,
    preferredCategories: seq<string>,
    preferredWorkType: seq<string>,
    description: string,
    experienceYears: Option<int>,
    minBudget: Option<int>)

  /** A profile built by the repository's own constructor: the declared
      fields only. */
  function DeclaredProfile(skills: seq<string>, categories: seq<string>, workTypes: seq<string>,
                           description: string): (p: UserProfile)
    ensures p.experienceYears.None? && p.minBudget.None?
    ensures p.skills == skills && p.preferredCategories == categories
    ensures p.preferredWorkType == workTypes && p.description == description
  {
    UserProfile(skills, categories, workTypes, description, None, None)
  }
}
