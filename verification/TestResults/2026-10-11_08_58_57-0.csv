TestResult.DisplayName,TestResult.Outcome,TestResult.Duration,TestResult.ResourceCount,RandomSeed
QueryPatterns.LeftmostFrom (well-formedness),Passed,00:00:00.5794449,2504845,0
