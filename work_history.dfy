/** The records the core reads from storage (schema: app.js, tables job_postings, work_history, work_history_entries). */
module WorkHistory {
  import opened Wrappers

  /**
    One row of `SELECT wh.*, whe.description, whe.skills` over `work_history`
    joined with `work_history_entries`: the work-history columns, then the
    description and the raw comma-separated skills of one entry. A NULL date
    is `None`.
  */
  datatype Row = Row(
    id: int,
    userId: int,
    company: string,
    position: string,
    startDate: Option<string>,
    endDate: Option<string>,
    description: string,
    skills: string)

  /** A row of `job_postings`; `requiredSkills` is the raw comma-separated text. */
  datatype JobPosting = JobPosting(
    id: int,
    title: string,
    company: string,
    description: string,
    requiredSkills: string)
}
